/** The mutable set of environment variables that the entrypoints work on. */
module ProcessEnvironment {

  type Vars = map<string, string>

  class Environment {
    var vars: Vars

    constructor (initial: Vars)
      ensures vars == initial
    {
      vars := initial;
    }

    method Set(name: string, value: string)
      modifies this
      ensures vars == old(vars)[name := value]
    {
      vars := vars[name := value];
    }

    method Delete(name: string)
      modifies this
      ensures vars == old(vars) - {name}
    {
      vars := vars - {name};
    }
  }

  /** A missing variable reads as the empty string. */
  function Get(vars: Vars, name: string): string {
    if name in vars then vars[name] else ""
  }
}
