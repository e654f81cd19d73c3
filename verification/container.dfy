/** The string-keyed dependency registry. Dependencies are values of an
    arbitrary type `D` standing for Go's `interface{}`; the lock that guards the
    map is not modelled. Resolving never changes the registry, which here means
    that `Resolve` and `Get` return no new container. */
module Container {
  import opened Base

  datatype Container<D> = Container(dependencies: map<string, D>)

  /** The outcome of the typed getter: the dependency, or a panic with its message. */
  datatype Got<D> = Value(dependency: D) | Panic(message: string)

  function NewContainer<D>(): (c: Container<D>)
    ensures |c.dependencies| == 0
  {
    Container(map[])
  }

  /** Binds `name` to `d`, replacing any earlier binding of `name` and leaving
      every other name as it was. */
  function Register<D>(c: Container<D>, name: string, d: D): (c': Container<D>)
    ensures name in c'.dependencies && c'.dependencies[name] == d
    ensures c'.dependencies.Keys == c.dependencies.Keys + {name}
    ensures forall n :: n in c.dependencies && n != name ==> c'.dependencies[n] == c.dependencies[n]
  {
    Container(c.dependencies[name := d])
  }

  /** The error text for a name nobody registered. */
  function NotFound(name: string): Error
  {
    Text("dependency " + name + " not found")
  }

  /** Looks `name` up: the bound value with no error, or `nil` and a not-found error. */
  function Resolve<D>(c: Container<D>, name: string): (r: Ret<Option<D>>)
    ensures r.err.None? <==> name in c.dependencies
    ensures name in c.dependencies ==> r.value == Some(c.dependencies[name])
    ensures name !in c.dependencies ==> r == Ret(None, Some(NotFound(name)))
  {
    if name in c.dependencies then Ret(Some(c.dependencies[name]), None)
    else Ret(None, Some(NotFound(name)))
  }

  /** Resolving a name right after registering it yields the registered value. */
  lemma ResolveAfterRegister<D>(c: Container<D>, name: string, d: D)
    ensures Resolve(Register(c, name, d), name) == Ret(Some(d), None)
  {
  }

  /** Registering one name does not change what any other name resolves to. */
  lemma RegisterIsolated<D>(c: Container<D>, name: string, other: string, d: D)
    requires other != name
    ensures Resolve(Register(c, name, d), other) == Resolve(c, other)
  {
  }

  /** `Get[T]`: resolves `name` and asserts the value to the type `T`, whose
      membership test is `isT`; either failure panics with the same message. */
  function Get<D>(c: Container<D>, name: string, isT: D -> bool): (r: Got<D>)
    ensures r.Value? <==> name in c.dependencies && isT(c.dependencies[name])
    ensures r.Value? ==> r.dependency == c.dependencies[name]
    ensures r.Panic? ==> r.message == name + " is not resolved."
  {
    var resolved := Resolve(c, name);
    if resolved.err.Some? then Panic(name + " is not resolved.")
    else if resolved.value.None? || !isT(resolved.value.value) then Panic(name + " is not resolved.")
    else Value(resolved.value.value)
  }
}
