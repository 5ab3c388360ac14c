/** `SimpleTypeResolver`: turns a descriptor into an SSZ type node by asking
    the accessor registry, in a fixed order, for a basic, list, union or
    container accessor; list nodes also get their vector length and maximum
    size from the `@SSZ` annotation or from named external constants. */
module TypeResolver {
  import opened SszBase
  import opened Descriptors

  /** An accessor registered with the `AccessorResolver`, by identity. */
  type AccessorId = nat

  /** The injected `AccessorResolver`: for each kind, the accessor that
      declares support for a descriptor, if any. */
  datatype AccessorResolver = AccessorResolver(
    basic: SszField -> Option<AccessorId>,
    list: SszField -> Option<AccessorId>,
    union: SszField -> Option<AccessorId>,
    container: SszField -> Option<AccessorId>)

  /** The injected `ExternalVarResolver`: named constants, each an integral
      `Number` no wider than a `long`. */
  type ExternalVars = map<string, JavaLong>

  /** The four kinds of `SSZType` the resolver builds. */
  datatype SszType =
    | BasicType(descriptor: SszField, accessor: AccessorId)
    | ListType(descriptor: SszField, accessor: AccessorId, vectorSize: JavaInt, maxSize: JavaLong)
    | UnionType(descriptor: SszField, accessor: AccessorId)
    | ContainerType(descriptor: SszField, accessor: AccessorId)

  /** `Number.intValue()` of an integral number: its low 32 bits, read as a
      two's-complement `int`. */
  function IntValue(n: JavaLong): (r: JavaInt)
    ensures (n - r) % UINT32_LIMIT == 0
    ensures -0x8000_0000 <= n <= JAVA_INT_MAX ==> r == n
  {
    (n + 0x8000_0000) % UINT32_LIMIT - 0x8000_0000
  }

  /** `resolveOrThrow(name, Number.class)`. */
  function ResolveOrThrow(vars: ExternalVars, name: string): (r: Result<JavaLong, SszError>)
    ensures r.Success? <==> name in vars
    ensures r.Success? ==> r.value == vars[name]
    ensures r.Failure? ==> r.error == UnresolvedVariable(name)
  {
    if name in vars then Success(vars[name]) else Failure(UnresolvedVariable(name))
  }

  /** `getVectorSize`: a positive literal `vectorLength` wins; otherwise a
      non-empty `vectorLengthVar` is looked up (narrowed to `int`); otherwise,
      and always without an annotation, the size is `VARIABLE_SIZE`. */
  function GetVectorSize(d: SszField, vars: ExternalVars): (r: Result<JavaInt, SszError>)
    ensures d.fieldAnnotation.None? ==> r == Success(VARIABLE_SIZE)
    ensures d.fieldAnnotation.Some? && d.fieldAnnotation.value.vectorLength > 0 ==>
              r == Success(d.fieldAnnotation.value.vectorLength)
    ensures r.Failure? <==>
              && d.fieldAnnotation.Some?
              && d.fieldAnnotation.value.vectorLength <= 0
              && d.fieldAnnotation.value.vectorLengthVar != ""
              && d.fieldAnnotation.value.vectorLengthVar !in vars
    ensures r.Failure? ==> r.error == UnresolvedVariable(d.fieldAnnotation.value.vectorLengthVar)
    ensures d.fieldAnnotation.Some? && d.fieldAnnotation.value.vectorLength <= 0 ==>
              var name := d.fieldAnnotation.value.vectorLengthVar;
              && (name == "" ==> r == Success(VARIABLE_SIZE))
              && (name != "" && name in vars ==> r == Success(IntValue(vars[name])))
  {
    match d.fieldAnnotation
    case None => Success(VARIABLE_SIZE)
    case Some(a) =>
      if a.vectorLength > 0 then Success(a.vectorLength)
      else if a.vectorLengthVar != "" then
        match ResolveOrThrow(vars, a.vectorLengthVar)
        case Success(n) => Success(IntValue(n))
        case Failure(e) => Failure(e)
      else Success(VARIABLE_SIZE)
  }

  /** `getMaxSize`: the same precedence over `maxSize` and `maxSizeVar`,
      kept as a `long`. */
  function GetMaxSize(d: SszField, vars: ExternalVars): (r: Result<JavaLong, SszError>)
    ensures d.fieldAnnotation.None? ==> r == Success(VARIABLE_SIZE)
    ensures d.fieldAnnotation.Some? && d.fieldAnnotation.value.maxSize > 0 ==>
              r == Success(d.fieldAnnotation.value.maxSize)
    ensures r.Failure? <==>
              && d.fieldAnnotation.Some?
              && d.fieldAnnotation.value.maxSize <= 0
              && d.fieldAnnotation.value.maxSizeVar != ""
              && d.fieldAnnotation.value.maxSizeVar !in vars
    ensures r.Failure? ==> r.error == UnresolvedVariable(d.fieldAnnotation.value.maxSizeVar)
    ensures d.fieldAnnotation.Some? && d.fieldAnnotation.value.maxSize <= 0 ==>
              var name := d.fieldAnnotation.value.maxSizeVar;
              && (name == "" ==> r == Success(VARIABLE_SIZE))
              && (name != "" && name in vars ==> r == Success(vars[name]))
  {
    match d.fieldAnnotation
    case None => Success(VARIABLE_SIZE)
    case Some(a) =>
      if a.maxSize > 0 then Success(a.maxSize)
      else if a.maxSizeVar != "" then ResolveOrThrow(vars, a.maxSizeVar)
      else Success(VARIABLE_SIZE)
  }

  /** `resolveSSZType`: the first accessor kind, in the order basic, list,
      union, container, that supports the descriptor decides the node; with
      none, resolution fails with `SSZSchemeException`. */
  function ResolveSszType(ar: AccessorResolver, vars: ExternalVars, d: SszField): (r: Result<SszType, SszError>)
    ensures r.Success? ==> r.value.descriptor == d
    ensures ar.basic(d).Some? ==> r == Success(BasicType(d, ar.basic(d).value))
    ensures r.Success? && r.value.BasicType? ==> ar.basic(d) == Some(r.value.accessor)
    ensures r.Success? && r.value.ListType? ==>
              && ar.basic(d).None? && ar.list(d) == Some(r.value.accessor)
              && GetVectorSize(d, vars) == Success(r.value.vectorSize)
              && GetMaxSize(d, vars) == Success(r.value.maxSize)
    ensures r.Success? && r.value.UnionType? ==>
              ar.basic(d).None? && ar.list(d).None? && ar.union(d) == Some(r.value.accessor)
    ensures r.Success? && r.value.ContainerType? ==>
              && ar.basic(d).None? && ar.list(d).None? && ar.union(d).None?
              && ar.container(d) == Some(r.value.accessor)
    ensures r == Failure(SchemeException) <==>
              ar.basic(d).None? && ar.list(d).None? && ar.union(d).None? && ar.container(d).None?
    ensures r.Failure? && r.error != SchemeException ==>
              && ar.basic(d).None? && ar.list(d).Some?
              && (GetVectorSize(d, vars).Failure? || GetMaxSize(d, vars).Failure?)
    ensures ar.basic(d).None? && ar.list(d).Some? && GetVectorSize(d, vars).Failure? ==>
              r == Failure(GetVectorSize(d, vars).error)
    ensures ar.basic(d).None? && ar.list(d).Some? && GetVectorSize(d, vars).Success? && GetMaxSize(d, vars).Failure? ==>
              r == Failure(GetMaxSize(d, vars).error)
  {
    if ar.basic(d).Some? then Success(BasicType(d, ar.basic(d).value))
    else if ar.list(d).Some? then
      match GetVectorSize(d, vars)
      case Failure(e) => Failure(e)
      case Success(vectorSize) =>
        match GetMaxSize(d, vars)
        case Failure(e) => Failure(e)
        case Success(maxSize) => Success(ListType(d, ar.list(d).value, vectorSize, maxSize))
    else if ar.union(d).Some? then Success(UnionType(d, ar.union(d).value))
    else if ar.container(d).Some? then Success(ContainerType(d, ar.container(d).value))
    else Failure(SchemeException)
  }

  /** A positive literal in the annotation decides both sizes whatever the
      variable names and whatever the external constants. */
  lemma LiteralTakesPrecedence(d: SszField, e: SszField, vars: ExternalVars, vars': ExternalVars)
    requires d.fieldAnnotation.Some? && e.fieldAnnotation.Some?
    requires d.fieldAnnotation.value.vectorLength == e.fieldAnnotation.value.vectorLength > 0
    requires d.fieldAnnotation.value.maxSize == e.fieldAnnotation.value.maxSize > 0
    ensures GetVectorSize(d, vars) == GetVectorSize(e, vars') == Success(d.fieldAnnotation.value.vectorLength)
    ensures GetMaxSize(d, vars) == GetMaxSize(e, vars') == Success(d.fieldAnnotation.value.maxSize)
  {
  }

  /** Registering more external constants never changes a size that
      already resolved, nor a node that already resolved. */
  lemma MoreVariablesKeepResolution(ar: AccessorResolver, vars: ExternalVars, vars': ExternalVars, d: SszField)
    requires forall name :: name in vars ==> name in vars' && vars'[name] == vars[name]
    requires ResolveSszType(ar, vars, d).Success?
    ensures ResolveSszType(ar, vars', d) == ResolveSszType(ar, vars, d)
  {
    if ar.basic(d).None? && ar.list(d).Some? {
      assert GetVectorSize(d, vars').Success? && GetVectorSize(d, vars') == GetVectorSize(d, vars);
      assert GetMaxSize(d, vars').Success? && GetMaxSize(d, vars') == GetMaxSize(d, vars);
    }
  }
}
