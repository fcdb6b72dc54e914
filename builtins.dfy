/** Registration of the two built-in policies by the init functions of
    pkg/strategy/immediate and pkg/strategy/spread. */
module Builtins {
  import opened Wrappers
  import Config
  import opened Factory

  /** The registry once both built-in policies have registered. */
  const BuiltinConstructors: map<string, Constructor> :=
    map[Config.StrategyImmediate := ImmediateConstructor, Config.StrategySpread := SpreadConstructor]

  /** Both init functions, run on a fresh registry. Each registers its
      policy under its own name; the names differ, so neither registration
      fails and log.Fatal is never reached. */
  method Init() returns (reg: Registry)
    ensures fresh(reg)
    ensures reg.constructors == BuiltinConstructors
  {
    reg := new Registry();
    var err := reg.Register(Config.StrategyImmediate, ImmediateConstructor);
    assert err == None;
    err := reg.Register(Config.StrategySpread, SpreadConstructor);
    assert err == None;
  }

  /** After the init functions, exactly the names "immediate" and "spread"
      resolve, each to its own policy; the default strategy resolves to
      Spread. */
  lemma BuiltinLookup(name: string)
    ensures Lookup(BuiltinConstructors, name).Success? <==> name == "immediate" || name == "spread"
    ensures Lookup(BuiltinConstructors, "immediate") == Success(ImmediateConstructor)
    ensures Lookup(BuiltinConstructors, Config.DefaultStrategy) == Success(SpreadConstructor)
  {
  }

  /** Every criterion that passed validation without naming a strategy was
      given the default one, which the built-in registry resolves. */
  lemma DefaultedStrategyResolves(c: Config.Criteria, v: Config.Criteria)
    requires c.strategy == ""
    requires Config.FullyDefaulted(c, v)
    ensures Lookup(BuiltinConstructors, v.strategy) == Success(SpreadConstructor)
  {
  }
}
