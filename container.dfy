/**
 * The factory of `src/watoki/factory/Factory.php`: a singleton map and a
 * provider registry, both keyed by normalised class names, and the lookup
 * that walks the superclass chain to find the most specific provider.
 *
 * Reflection is replaced by data: the class hierarchy is a `ClassTable`,
 * providers are opaque identifiers, and `Provider::provide` is a function
 * the caller passes in.
 */
module Container {
  import opened Values
  import opened Names

  /** `__CLASS__` inside Factory.php: the name the factory registers itself under. */
  const FactoryClass: string := "watoki\\factory\\Factory"

  /** The key of the default provider: `normalizeClass(null)`. */
  const DefaultKey: string := ""

  /** A registered provider, known only by identity. */
  type ProviderId = nat

  /** `Provider::provide($class, $args)`: what a provider builds for a class name and an argument bag. */
  type Provide = (ProviderId, string, Args) -> Result<Value>

  /**
   * The key under which PHP finds a class by name: the name lower-cased
   * after dropping one leading namespace separator. Unlike `normalizeClass`
   * it keeps a trailing separator and a second leading one, so `Derived\`
   * names no class.
   */
  function ClassKey(cls: string): (key: string)
    ensures |key| <= |cls|
    ensures forall i :: 0 <= i < |key| ==> !IsUpper(key[i])
  {
    ToLower(if cls != [] && cls[0] == Backslash then cls[1..] else cls)
  }

  /**
   * A trailing separator leaves the registry key alone but changes the class
   * the name denotes, so the superclass walk stops at such a name.
   */
  lemma TrailingSeparatorChangesClassKey(cls: string)
    requires cls != []
    ensures Normalize(cls + [Backslash]) == Normalize(cls)
    ensures ClassKey(cls + [Backslash]) != ClassKey(cls)
  {
    NormalizeIgnoresTrailingSeparator(cls);
    var plain := if cls[0] == Backslash then cls[1..] else cls;
    assert (if (cls + [Backslash])[0] == Backslash then (cls + [Backslash])[1..] else cls + [Backslash]) == plain + [Backslash];
    assert |ClassKey(cls + [Backslash])| == |plain| + 1;
  }

  /** A separator is a separator after lower-casing, and nothing else becomes one. */
  lemma ToLowerKeepsSeparators(s: string)
    ensures forall i :: 0 <= i < |s| ==> (ToLower(s)[i] == Backslash <==> s[i] == Backslash)
  {
  }

  /**
   * For an ordinary name (no trailing separator, at most one leading one)
   * PHP's class key and the registry key coincide.
   */
  lemma ClassKeyIsNormalize(cls: string)
    requires cls == [] || cls[|cls| - 1] != Backslash
    requires !(|cls| >= 2 && cls[0] == Backslash && cls[1] == Backslash)
    ensures ClassKey(cls) == Normalize(cls)
  {
    var lower := ToLower(cls);
    ToLowerKeepsSeparators(cls);
    var left := TrimLeft(lower, {Backslash});
    if cls != [] && cls[0] == Backslash {
      assert ToLower(cls[1..]) == lower[1..];
      assert left == TrimLeft(lower[1..], {Backslash});
      assert lower[1..] == [] || lower[1..][0] != Backslash;
      assert left == lower[1..];
    } else {
      assert left == lower;
    }
    assert left == [] || left[|left| - 1] != Backslash;
    assert TrimRight(left, {Backslash}) == left;
  }

  /** One leading separator does not change the class a name denotes. */
  lemma ClassKeyIgnoresLeadingSeparator(cls: string)
    requires cls == [] || cls[0] != Backslash
    ensures ClassKey([Backslash] + cls) == ClassKey(cls)
  {
    assert ([Backslash] + cls)[1..] == cls;
  }

  /**
   * The class hierarchy as `get_parent_class` sees it: `parent` maps the
   * key of a class to the name of its superclass. `rank` is a witness that
   * the hierarchy is acyclic (every class ranks above its parent).
   */
  datatype ClassTable = ClassTable(parent: map<string, string>, rank: map<string, nat>)
  {
    predicate WellFormed()
    {
      forall k :: k in parent ==>
        k in rank && ClassKey(parent[k]) in rank && rank[ClassKey(parent[k])] < rank[k]
    }

    /**
     * `get_parent_class($class)`: the superclass, or false (`None`) for a
     * root class or a name that denotes no class. A parent ranks below its
     * child, so walking up the hierarchy ends.
     */
    function ParentOf(cls: string): (p: Option<string>)
      ensures WellFormed() && p.Some? ==> Height(p) < Height(Some(cls))
    {
      var k := ClassKey(cls);
      if k in parent then Some(parent[k]) else None
    }

    function Height(cls: Option<string>): nat
    {
      match cls
      case None => 0
      case Some(c) => 1 + (if ClassKey(c) in rank then rank[ClassKey(c)] else 0)
    }

    /** The classes `findMatchingProvider` visits: `c`, its parent, its grandparent, ... while the name is truthy. */
    function Chain(cls: Option<string>): (chain: seq<string>)
      requires WellFormed()
      ensures cls.Some? && Truthy(cls) ==> chain != [] && chain[0] == cls.value
      ensures !Truthy(cls) ==> chain == []
      decreases Height(cls)
    {
      if !Truthy(cls) then [] else [cls.value] + Chain(ParentOf(cls.value))
    }
  }

  /** Every class on the chain has a truthy name. */
  lemma {:induction false} ChainTruthy(h: ClassTable, cls: Option<string>)
    requires h.WellFormed()
    ensures forall j :: 0 <= j < |h.Chain(cls)| ==> Truthy(Some(h.Chain(cls)[j]))
    decreases h.Height(cls)
  {
    if Truthy(cls) {
      var next := h.ParentOf(cls.value);
      ChainTruthy(h, next);
      var rest := h.Chain(next);
      assert h.Chain(cls) == [cls.value] + rest;
    }
  }

  /** Each class on the chain after the first is the parent of the one before it. */
  lemma {:induction false} ChainLinks(h: ClassTable, cls: Option<string>)
    requires h.WellFormed()
    ensures forall j :: 0 < j < |h.Chain(cls)| ==> Some(h.Chain(cls)[j]) == h.ParentOf(h.Chain(cls)[j - 1])
    decreases h.Height(cls)
  {
    if Truthy(cls) {
      var next := h.ParentOf(cls.value);
      ChainLinks(h, next);
      var rest := h.Chain(next);
      var chain := [cls.value] + rest;
      assert h.Chain(cls) == chain;
      forall j | 0 < j < |chain|
        ensures Some(chain[j]) == h.ParentOf(chain[j - 1])
      {
        if j == 1 {
          assert rest[0] == next.value;
        } else {
          assert chain[j] == rest[j - 1] && chain[j - 1] == rest[j - 2];
        }
      }
    }
  }

  /** The walk stops at the last class of the chain: its parent is not truthy. */
  lemma {:induction false} ChainEnds(h: ClassTable, cls: Option<string>)
    requires h.WellFormed() && h.Chain(cls) != []
    ensures !Truthy(h.ParentOf(h.Chain(cls)[|h.Chain(cls)| - 1]))
    decreases h.Height(cls)
  {
    var next := h.ParentOf(cls.value);
    var rest := h.Chain(next);
    assert h.Chain(cls) == [cls.value] + rest;
    if rest != [] {
      ChainEnds(h, next);
    }
  }

  /**
   * The registry key whose provider serves a class with superclass chain
   * `chain`: the key of the first class of the chain that has a provider, or
   * the default key.
   */
  function MatchKey(providers: map<string, ProviderId>, chain: seq<string>): (key: string)
    ensures key == DefaultKey || key in providers
  {
    if chain == [] then DefaultKey
    else if Normalize(chain[0]) in providers then Normalize(chain[0])
    else MatchKey(providers, chain[1..])
  }

  /**
   * Only the classes of the chain are consulted: a key that no class of the
   * chain normalises to (an interface's, say) is never selected, unless it is
   * the default key.
   */
  lemma {:induction false} MatchKeyOnChain(providers: map<string, ProviderId>, chain: seq<string>, other: string)
    requires other != DefaultKey
    requires forall j :: 0 <= j < |chain| ==> Normalize(chain[j]) != other
    ensures MatchKey(providers, chain) != other
  {
    if chain != [] && Normalize(chain[0]) !in providers {
      var rest := chain[1..];
      assert forall j :: 0 <= j < |rest| ==> rest[j] == chain[j + 1];
      MatchKeyOnChain(providers, rest, other);
    }
  }

  /** The most specific class of the chain that has a provider is the one that is used. */
  lemma {:induction false} MatchKeyFirst(providers: map<string, ProviderId>, chain: seq<string>, i: nat)
    requires i < |chain| && Normalize(chain[i]) in providers
    requires forall j :: 0 <= j < i ==> Normalize(chain[j]) !in providers
    ensures MatchKey(providers, chain) == Normalize(chain[i])
  {
    if i > 0 {
      assert Normalize(chain[0]) !in providers;
      MatchKeyFirst(providers, chain[1..], i - 1);
    }
  }

  /** When no class of the chain has a provider, the default key is used. */
  lemma {:induction false} MatchKeyDefault(providers: map<string, ProviderId>, chain: seq<string>)
    requires forall j :: 0 <= j < |chain| ==> Normalize(chain[j]) !in providers
    ensures MatchKey(providers, chain) == DefaultKey
  {
    if chain != [] {
      var rest := chain[1..];
      assert Normalize(chain[0]) !in providers;
      assert forall j :: 0 <= j < |rest| ==> rest[j] == chain[j + 1];
      MatchKeyDefault(providers, rest);
    }
  }

  /** The factory: its two maps are the only state the source keeps. */
  class Factory {
    var singletons: map<string, Value>
    var providers: map<string, ProviderId>

    /** The default provider is always registered. */
    ghost predicate Valid()
      reads this
    {
      DefaultKey in providers
    }

    /** `isset($this->singletons[$key])`: present and not null. */
    predicate Isset(key: string)
      reads this
    {
      key in singletons && singletons[key] != Null
    }

    /** The factory registers itself as a singleton and installs the default provider. */
    constructor (defaultProvider: ProviderId)
      ensures Valid()
      ensures singletons == map[Normalize(FactoryClass) := Obj(this)]
      ensures providers == map[DefaultKey := defaultProvider]
    {
      singletons, providers := map[], map[];
      new;
      var _ := SetSingleton(FactoryClass, Obj(this));
      SetProvider(None, defaultProvider);
    }

    /**
     * A registered singleton wins whatever the arguments; otherwise the
     * provider of the most specific registered class of the superclass chain
     * (or the default provider) builds the instance from the name as given
     * and the arguments unchanged.
     */
    method GetInstance(h: ClassTable, provide: Provide, cls: string, args: Args) returns (r: Result<Value>)
      requires Valid() && h.WellFormed()
      ensures Isset(Normalize(cls)) ==> r == Ok(singletons[Normalize(cls)])
      ensures !Isset(Normalize(cls)) ==>
        r == provide(providers[MatchKey(providers, h.Chain(Some(cls)))], cls, args)
    {
      var normalized := Normalize(cls);
      if normalized in singletons && singletons[normalized] != Null {
        return Ok(singletons[normalized]);
      }
      var provider := FindMatchingProvider(h, cls);
      r := provide(provider, cls, args);
    }

    /** The strict lookup: the registered non-null singleton, or an error naming the class. */
    method GetSingleton(cls: string) returns (r: Result<Value>)
      ensures r.Ok? <==> Isset(Normalize(cls))
      ensures r.Ok? ==> r.value == singletons[Normalize(cls)] && r.value != Null
      ensures r.Err? ==> r.error == InstanceNotFound(cls)
    {
      var normalized := Normalize(cls);
      if !(normalized in singletons && singletons[normalized] != Null) {
        return Err(InstanceNotFound(cls));
      }
      return Ok(singletons[normalized]);
    }

    /** Stores `instance` under the key of `cls`, replacing what was there, and returns it. */
    method SetSingleton(cls: string, instance: Value) returns (r: Value)
      modifies this
      ensures r == instance
      ensures singletons == old(singletons)[Normalize(cls) := instance]
      ensures providers == old(providers)
    {
      singletons := singletons[Normalize(cls) := instance];
      r := instance;
    }

    /** Registers `provider` under the key of `cls` (the default key for null): the last registration wins. */
    method SetProvider(cls: Option<string>, provider: ProviderId)
      modifies this
      ensures providers == old(providers)[NormalizeOrNull(cls) := provider]
      ensures singletons == old(singletons)
    {
      providers := providers[NormalizeOrNull(cls) := provider];
    }

    /**
     * Walks `cls` and its superclasses and returns the provider of the first
     * one registered, else the default provider.
     */
    method FindMatchingProvider(h: ClassTable, cls: string) returns (p: ProviderId)
      requires Valid() && h.WellFormed()
      ensures p == providers[MatchKey(providers, h.Chain(Some(cls)))]
    {
      var current := Some(cls);
      while Truthy(current)
        invariant MatchKey(providers, h.Chain(current)) == MatchKey(providers, h.Chain(Some(cls)))
        decreases h.Height(current)
      {
        var normalized := Normalize(current.value);
        var keys := providers.Keys;
        while keys != {}
          invariant keys <= providers.Keys
          invariant normalized in providers ==> normalized in keys
          decreases keys
        {
          var key :| key in keys;
          if normalized == key {
            return providers[key];
          }
          keys := keys - {key};
        }
        current := h.ParentOf(current.value);
      }
      return providers[DefaultKey];
    }
  }

  /**
   * After `setSingleton(c, x)` with a non-null `x`, asking for any name with
   * the same key returns `x`, whatever the arguments.
   */
  method SingletonShadowsProviders(f: Factory, h: ClassTable, provide: Provide,
                                   cls: string, alias: string, x: Value, args: Args)
    returns (r: Result<Value>)
    requires f.Valid() && h.WellFormed()
    requires x != Null && Normalize(alias) == Normalize(cls)
    modifies f
    ensures r == Ok(x)
  {
    var _ := f.SetSingleton(cls, x);
    r := f.GetInstance(h, provide, alias, args);
  }
}
