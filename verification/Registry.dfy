/** The master registry's classification of components, and the activation bus that is filled from
    it at boot and changed at run time. */
module Registry {
  import opened Text

  datatype LoadStrategy = Eager | Lazy | Manual

  datatype Entry = Entry(
    id: string, domain: string, strategy: LoadStrategy, events: seq<string>,
    enabled: bool, binaryHash: Option<string>, name: string)

  /** The registry file as it was parsed; entries do not carry their names yet. */
  datatype RawRegistry = RawRegistry(
    extensions: map<string, Entry>, plugins: map<string, Entry>, mcp: map<string, Entry>)

  datatype Index = Index(eager: seq<Entry>, lazy: seq<Entry>, manual: seq<Entry>, disabled: seq<Entry>)

  // ---- Classification ----

  /** The entries of a component map with their names. */
  function Named(m: map<string, Entry>): multiset<Entry> {
    multiset(set name | name in m :: m[name].(name := name))
  }

  function AllEntries(raw: RawRegistry): multiset<Entry> {
    Named(raw.extensions) + Named(raw.plugins) + Named(raw.mcp)
  }

  /** The four lists hold each entry as often as `all` does, in the list of its strategy when it is
      enabled, in the disabled list when it is not, and in no other. */
  ghost predicate Classified(index: Index, all: multiset<Entry>) {
    && (forall e :: multiset(index.eager)[e] == if e.enabled && e.strategy.Eager? then all[e] else 0)
    && (forall e :: multiset(index.lazy)[e] == if e.enabled && e.strategy.Lazy? then all[e] else 0)
    && (forall e :: multiset(index.manual)[e] == if e.enabled && e.strategy.Manual? then all[e] else 0)
    && (forall e :: multiset(index.disabled)[e] == if e.enabled then 0 else all[e])
  }

  lemma NamedWithout(m: map<string, Entry>, name: string)
    requires name in m
    ensures Named(m) == Named(m - {name}) + multiset{m[name].(name := name)}
  {
    var rest := set n | n in m - {name} :: (m - {name})[n].(name := n);
    var all := set n | n in m :: m[n].(name := n);
    var entry := m[name].(name := name);
    assert entry !in rest;
    forall e ensures e in all <==> e in rest + {entry} {
      if e in all {
        var n :| n in m && e == m[n].(name := n);
        assert n != name ==> n in m - {name};
      }
      if e in rest {
        var n :| n in m - {name} && e == (m - {name})[n].(name := n);
        assert n in m;
      }
    }
    assert all == rest + {entry};
  }

  /** Drains one component map, in whatever order the map yields its entries. */
  method Drain(m: map<string, Entry>, entries: seq<Entry>) returns (r: seq<Entry>)
    ensures multiset(r) == multiset(entries) + Named(m)
  {
    r := entries;
    var rest := m;
    while rest.Keys != {}
      invariant multiset(r) + Named(rest) == multiset(entries) + Named(m)
      decreases rest.Keys
    {
      var name :| name in rest.Keys;
      NamedWithout(rest, name);
      r := r + [rest[name].(name := name)];
      var keys := rest.Keys;
      rest := rest - {name};
      assert rest.Keys == keys - {name};
    }
    assert rest == map[];
  }

  method DrainAll(raw: RawRegistry) returns (all: seq<Entry>)
    ensures multiset(all) == AllEntries(raw)
  {
    all := Drain(raw.extensions, []);
    all := Drain(raw.plugins, all);
    all := Drain(raw.mcp, all);
  }

  /** One turn of the classifying loop. */
  method Classify(index: Index, entry: Entry, ghost all: multiset<Entry>) returns (r: Index)
    requires Classified(index, all)
    ensures Classified(r, all + multiset{entry})
  {
    if !entry.enabled {
      return index.(disabled := index.disabled + [entry]);
    }
    match entry.strategy
    case Eager => r := index.(eager := index.eager + [entry]);
    case Lazy => r := index.(lazy := index.lazy + [entry]);
    case Manual => r := index.(manual := index.manual + [entry]);
  }

  method LoadIndex(raw: RawRegistry) returns (index: Index)
    ensures Classified(index, AllEntries(raw))
  {
    var all := DrainAll(raw);
    index := ClassifyAll(all);
  }

  method ClassifyAll(all: seq<Entry>) returns (index: Index)
    ensures Classified(index, multiset(all))
  {
    index := Index([], [], [], []);
    assert all[..0] == [];
    for i := 0 to |all|
      invariant Classified(index, multiset(all[..i]))
    {
      assert all[..i + 1] == all[..i] + [all[i]];
      index := Classify(index, all[i], multiset(all[..i]));
    }
    assert all[..|all|] == all;
  }

  /** The four classes partition the entries. */
  lemma Partition(index: Index, all: multiset<Entry>)
    requires Classified(index, all)
    ensures multiset(index.eager) + multiset(index.lazy) + multiset(index.manual) + multiset(index.disabled) == all
  {
    forall e
      ensures multiset(index.eager)[e] + multiset(index.lazy)[e] + multiset(index.manual)[e]
              + multiset(index.disabled)[e] == all[e]
    {
      assert e.strategy.Eager? || e.strategy.Lazy? || e.strategy.Manual?;
    }
  }

  // ---- The activation bus ----

  type Watchers = map<string, seq<string>>

  function NamesAt(w: Watchers, event: string): seq<string> {
    if event in w then w[event] else []
  }

  predicate NoEmptyLists(w: Watchers) {
    forall event :: event in w ==> w[event] != []
  }

  predicate IsValidEvent(event: string) {
    event == "on_startup" || "on_cel_keyword:" <= event || "on_command:use plugin::" <= event
    || "on_file_type:" <= event || "on_api_route:" <= event
  }

  /** The event keys that fire are `on_startup` and every text behind one of four prefixes. */
  lemma FiringKeys(event: string)
    ensures IsValidEvent(event) <==>
              event == "on_startup" || exists rest ::
                event == "on_cel_keyword:" + rest || event == "on_command:use plugin::" + rest
                || event == "on_file_type:" + rest || event == "on_api_route:" + rest
  {
    KeyBehind(event, "on_cel_keyword:");
    KeyBehind(event, "on_command:use plugin::");
    KeyBehind(event, "on_file_type:");
    KeyBehind(event, "on_api_route:");
  }

  lemma KeyBehind(event: string, prefix: string)
    ensures prefix <= event <==> exists rest :: event == prefix + rest
  {
    if prefix <= event {
      assert event == prefix + event[|prefix|..];
    }
  }

  function Without(names: seq<string>, name: string): seq<string> {
    if names == [] then []
    else (if names[0] == name then [] else [names[0]]) + Without(names[1..], name)
  }

  datatype Op = Register(event: string, name: string) | Deregister(name: string)

  /** What an operation does to the list of one event. */
  function ModelOp(names: seq<string>, event: string, op: Op): seq<string> {
    match op
    case Register(ev, name) => if ev == event then names + [name] else names
    case Deregister(name) => Without(names, name)
  }

  function ModelRun(names: seq<string>, event: string, ops: seq<Op>): seq<string>
    decreases |ops|
  {
    if ops == [] then names else ModelOp(ModelRun(names, event, ops[..|ops| - 1]), event, ops[|ops| - 1])
  }

  /** The names that entries add for an event: one per listing, in order. */
  function Listings(entries: seq<Entry>, event: string): seq<string> {
    if entries == [] then []
    else Listings(entries[..|entries| - 1], event)
         + Repeats(entries[|entries| - 1].events, event, entries[|entries| - 1].name)
  }

  function Repeats(events: seq<string>, event: string, name: string): seq<string> {
    if events == [] then []
    else Repeats(events[..|events| - 1], event, name) + (if events[|events| - 1] == event then [name] else [])
  }

  lemma ListingsTake(entries: seq<Entry>, i: nat, event: string)
    requires i < |entries|
    ensures Listings(entries[..i + 1], event)
            == Listings(entries[..i], event) + Repeats(entries[i].events, event, entries[i].name)
  {
    assert entries[..i + 1][..i] == entries[..i];
  }

  lemma RepeatsTake(events: seq<string>, j: nat, event: string, name: string)
    requires j < |events|
    ensures Repeats(events[..j + 1], event, name)
            == Repeats(events[..j], event, name) + (if events[j] == event then [name] else [])
  {
    assert events[..j + 1][..j] == events[..j];
  }

  lemma Assoc(a: seq<string>, b: seq<string>, c: seq<string>)
    ensures a + b + c == a + (b + c)
  {
  }

  class ActivationEventBus {
    var watchers: Watchers

    constructor ()
      ensures watchers == map[]
    {
      watchers := map[];
    }

    method RegisterOne(event: string, name: string)
      modifies this
      ensures forall e :: NamesAt(watchers, e) == ModelOp(NamesAt(old(watchers), e), e, Register(event, name))
      ensures NoEmptyLists(old(watchers)) ==> NoEmptyLists(watchers)
    {
      if event !in watchers {
        watchers := watchers[event := []];
      }
      watchers := watchers[event := watchers[event] + [name]];
    }

    method RegisterFromRegistry(index: Index)
      modifies this
      ensures forall e :: NamesAt(watchers, e) == NamesAt(old(watchers), e) + Listings(index.lazy, e)
      ensures NoEmptyLists(old(watchers)) ==> NoEmptyLists(watchers)
    {
      assert index.lazy[..0] == [];
      for i := 0 to |index.lazy|
        invariant forall e :: NamesAt(watchers, e) == NamesAt(old(watchers), e) + Listings(index.lazy[..i], e)
        invariant NoEmptyLists(old(watchers)) ==> NoEmptyLists(watchers)
      {
        RegisterEntry(index.lazy[i]);
        forall e ensures NamesAt(watchers, e) == NamesAt(old(watchers), e) + Listings(index.lazy[..i + 1], e) {
          ListingsTake(index.lazy, i, e);
          Assoc(NamesAt(old(watchers), e), Listings(index.lazy[..i], e),
                Repeats(index.lazy[i].events, e, index.lazy[i].name));
        }
      }
      assert index.lazy[..|index.lazy|] == index.lazy;
    }

    method RegisterEntry(entry: Entry)
      modifies this
      ensures forall e :: NamesAt(watchers, e) == NamesAt(old(watchers), e) + Repeats(entry.events, e, entry.name)
      ensures NoEmptyLists(old(watchers)) ==> NoEmptyLists(watchers)
    {
      assert entry.events[..0] == [];
      for j := 0 to |entry.events|
        invariant forall e ::
                    NamesAt(watchers, e) == NamesAt(old(watchers), e) + Repeats(entry.events[..j], e, entry.name)
        invariant NoEmptyLists(old(watchers)) ==> NoEmptyLists(watchers)
      {
        RegisterOne(entry.events[j], entry.name);
        forall e
          ensures NamesAt(watchers, e) == NamesAt(old(watchers), e) + Repeats(entry.events[..j + 1], e, entry.name)
        {
          RepeatsTake(entry.events, j, e, entry.name);
          Assoc(NamesAt(old(watchers), e), Repeats(entry.events[..j], e, entry.name), [entry.name]);
        }
      }
      assert entry.events[..|entry.events|] == entry.events;
    }

    method Fire(event: string) returns (names: seq<string>)
      ensures names == if IsValidEvent(event) then NamesAt(watchers, event) else []
    {
      if !IsValidEvent(event) {
        return [];
      }
      names := if event in watchers then watchers[event] else [];
    }

    /** Filters every list in place and then drops the keys whose lists became empty. */
    method DeregisterName(name: string)
      modifies this
      ensures forall e :: NamesAt(watchers, e) == ModelOp(NamesAt(old(watchers), e), e, Deregister(name))
      ensures NoEmptyLists(watchers)
    {
      var toRemove := RetainOthers(name);
      RemoveKeys(toRemove);
    }

    method RetainOthers(name: string) returns (toRemove: set<string>)
      modifies this
      ensures watchers.Keys == old(watchers).Keys
      ensures forall e :: e in watchers ==> watchers[e] == Without(old(watchers)[e], name)
      ensures forall e :: e in toRemove <==> e in watchers && watchers[e] == []
    {
      toRemove := {};
      var todo := watchers.Keys;
      while todo != {}
        invariant todo <= watchers.Keys == old(watchers).Keys && toRemove <= watchers.Keys
        invariant forall e :: e in watchers ==>
                    watchers[e] == if e in todo then old(watchers)[e] else Without(old(watchers)[e], name)
        invariant forall e :: e in watchers && e !in todo ==> (watchers[e] == [] <==> e in toRemove)
        invariant toRemove !! todo
      {
        var event :| event in todo;
        watchers := watchers[event := Without(watchers[event], name)];
        if watchers[event] == [] {
          toRemove := toRemove + {event};
        }
        todo := todo - {event};
      }
    }

    method RemoveKeys(keys: set<string>)
      modifies this
      ensures watchers == old(watchers) - keys
    {
      var toRemove := keys;
      while toRemove != {}
        invariant watchers - toRemove == old(watchers) - keys
      {
        var event :| event in toRemove;
        watchers := watchers - {event};
        toRemove := toRemove - {event};
      }
    }

    /** A run of later installations and removals. */
    method Perform(ops: seq<Op>)
      requires NoEmptyLists(watchers)
      modifies this
      ensures forall e :: NamesAt(watchers, e) == ModelRun(NamesAt(old(watchers), e), e, ops)
      ensures NoEmptyLists(watchers)
    {
      assert ops[..0] == [];
      for i := 0 to |ops|
        invariant forall e :: NamesAt(watchers, e) == ModelRun(NamesAt(old(watchers), e), e, ops[..i])
        invariant NoEmptyLists(watchers)
      {
        match ops[i] {
          case Register(event, name) => RegisterOne(event, name);
          case Deregister(name) => DeregisterName(name);
        }
        assert ops[..i + 1][..i] == ops[..i];
      }
      assert ops[..|ops|] == ops;
    }
  }

  // ---- What firing an event returns ----

  lemma {:induction false} RepeatsCount(events: seq<string>, event: string, name: string)
    ensures multiset(Repeats(events, event, name)) == multiset{}[name := multiset(events)[event]]
  {
    if events != [] {
      var n := |events| - 1;
      RepeatsCount(events[..n], event, name);
      assert events == events[..n] + [events[n]];
    }
  }

  /** The names for an event do not depend, as a multiset, on the order of the entries. */
  lemma {:induction false} ListingsReorder(a: seq<Entry>, b: seq<Entry>, event: string)
    requires multiset(a) == multiset(b)
    ensures multiset(Listings(a, event)) == multiset(Listings(b, event))
    decreases |a|
  {
    if a == [] {
      assert |multiset(b)| == |multiset(a)| == 0;
    } else {
      var e := a[|a| - 1];
      assert a == a[..|a| - 1] + [e];
      assert e in multiset(b);
      var k :| 0 <= k < |b| && b[k] == e;
      var c := b[..k] + b[k + 1..];
      assert b == b[..k] + [e] + b[k + 1..];
      assert multiset(a) == multiset(a[..|a| - 1]) + multiset{e};
      assert multiset(b) == multiset(c) + multiset{e};
      assert multiset(a[..|a| - 1]) == multiset(a) - multiset{e} == multiset(c);
      ListingsReorder(a[..|a| - 1], c, event);
      ListingsInsert(b[..k], e, b[k + 1..], event);
    }
  }

  lemma {:induction false} ListingsInsert(a: seq<Entry>, e: Entry, b: seq<Entry>, event: string)
    ensures multiset(Listings(a + [e] + b, event))
            == multiset(Listings(a + b, event)) + multiset(Repeats(e.events, event, e.name))
    decreases |b|
  {
    if b == [] {
      assert a + [e] + b == a + [e] && a + b == a;
    } else {
      var front, last := b[..|b| - 1], b[|b| - 1];
      ListingsInsert(a, e, front, event);
      PushAfter(a + [e], b);
      PushAfter(a, b);
    }
  }

  lemma PushAfter(a: seq<Entry>, b: seq<Entry>)
    requires b != []
    ensures a + b[..|b| - 1] + [b[|b| - 1]] == a + b
  {
  }

  /** Whatever order the registry's maps are drained in, an event fires the same names, each as
      often as enabled lazy entries list the event. */
  lemma BootOrderIrrelevant(a: Index, b: Index, all: multiset<Entry>, event: string)
    requires Classified(a, all) && Classified(b, all)
    ensures multiset(Listings(a.lazy, event)) == multiset(Listings(b.lazy, event))
  {
    forall e ensures multiset(a.lazy)[e] == multiset(b.lazy)[e] {
    }
    ListingsReorder(a.lazy, b.lazy, event);
  }

  /** The number of times a name is fired: the sum of its listings over the lazy entries. */
  function Fired(entries: seq<Entry>, event: string, name: string): nat {
    if entries == [] then 0
    else
      var e := entries[|entries| - 1];
      Fired(entries[..|entries| - 1], event, name) + (if e.name == name then multiset(e.events)[event] else 0)
  }

  lemma {:induction false} ListingsCount(entries: seq<Entry>, event: string, name: string)
    ensures multiset(Listings(entries, event))[name] == Fired(entries, event, name)
  {
    if entries != [] {
      var e := entries[|entries| - 1];
      ListingsCount(entries[..|entries| - 1], event, name);
      RepeatsCount(e.events, event, e.name);
    }
  }

  // ---- What an event fires, in terms of the registry file ----

  /** The listings of an event by the entry under a name, if it is enabled and lazy. */
  function Listed(m: map<string, Entry>, event: string, name: string): nat {
    if name in m && m[name].enabled && m[name].strategy.Lazy? then multiset(m[name].events)[event] else 0
  }

  function LazyOf(m: map<string, Entry>, name: string): seq<Entry> {
    if name in m && m[name].enabled && m[name].strategy.Lazy? then [m[name].(name := name)] else []
  }

  function LazyIn(raw: RawRegistry, name: string): seq<Entry> {
    LazyOf(raw.extensions, name) + LazyOf(raw.plugins, name) + LazyOf(raw.mcp, name)
  }

  function OfName(entries: seq<Entry>, name: string): seq<Entry> {
    if entries == [] then []
    else
      var e := entries[|entries| - 1];
      OfName(entries[..|entries| - 1], name) + (if e.name == name then [e] else [])
  }

  lemma {:induction false} OfNameCounts(entries: seq<Entry>, name: string, e: Entry)
    ensures multiset(OfName(entries, name))[e] == if e.name == name then multiset(entries)[e] else 0
  {
    if entries != [] {
      var n := |entries| - 1;
      OfNameCounts(entries[..n], name, e);
      assert entries == entries[..n] + [entries[n]];
    }
  }

  lemma {:induction false} FiredOfName(entries: seq<Entry>, event: string, name: string)
    ensures Fired(OfName(entries, name), event, name) == Fired(entries, event, name)
  {
    if entries != [] {
      var e := entries[|entries| - 1];
      var front := OfName(entries[..|entries| - 1], name);
      FiredOfName(entries[..|entries| - 1], event, name);
      assert (front + [e])[..|front|] == front && front + [] == front;
    }
  }

  lemma {:induction false} FiredConcat(a: seq<Entry>, b: seq<Entry>, event: string, name: string)
    ensures Fired(a + b, event, name) == Fired(a, event, name) + Fired(b, event, name)
    decreases |b|
  {
    if b == [] {
      assert a + b == a;
    } else {
      FiredConcat(a, b[..|b| - 1], event, name);
      PushAfter(a, b);
      assert (a + b)[..|a + b| - 1] == a + b[..|b| - 1];
    }
  }

  lemma NamedHas(m: map<string, Entry>, e: Entry)
    ensures Named(m)[e] == if e.name in m && e == m[e.name].(name := e.name) then 1 else 0
  {
  }

  lemma LazyOfHas(m: map<string, Entry>, name: string, e: Entry)
    ensures multiset(LazyOf(m, name))[e]
            == if e.name == name && e.enabled && e.strategy.Lazy? then Named(m)[e] else 0
  {
    NamedHas(m, e);
  }

  lemma LazyInHas(raw: RawRegistry, name: string, e: Entry)
    ensures multiset(LazyIn(raw, name))[e]
            == if e.name == name && e.enabled && e.strategy.Lazy? then AllEntries(raw)[e] else 0
  {
    LazyOfHas(raw.extensions, name, e);
    LazyOfHas(raw.plugins, name, e);
    LazyOfHas(raw.mcp, name, e);
  }

  lemma LazyOfFires(m: map<string, Entry>, event: string, name: string)
    ensures Fired(LazyOf(m, name), event, name) == Listed(m, event, name)
  {
    var none: seq<Entry> := [];
    assert Fired(none, event, name) == 0;
    if LazyOf(m, name) != none {
      assert LazyOf(m, name)[..0] == none;
    }
  }

  /** After boot an event fires a name as often as the entries under that name in the three maps of
      the registry list the event, counting only entries that are enabled and lazy. */
  lemma FiresListed(raw: RawRegistry, index: Index, event: string, name: string)
    requires Classified(index, AllEntries(raw))
    ensures multiset(Listings(index.lazy, event))[name]
            == Listed(raw.extensions, event, name) + Listed(raw.plugins, event, name) + Listed(raw.mcp, event, name)
  {
    var own, found := OfName(index.lazy, name), LazyIn(raw, name);
    forall e ensures multiset(own)[e] == multiset(found)[e] {
      OfNameCounts(index.lazy, name, e);
      LazyInHas(raw, name, e);
    }
    ListingsReorder(own, found, event);
    ListingsCount(index.lazy, event, name);
    ListingsCount(own, event, name);
    ListingsCount(found, event, name);
    FiredOfName(index.lazy, event, name);
    FoundFires(raw, event, name);
  }

  lemma FoundFires(raw: RawRegistry, event: string, name: string)
    ensures Fired(LazyIn(raw, name), event, name)
            == Listed(raw.extensions, event, name) + Listed(raw.plugins, event, name) + Listed(raw.mcp, event, name)
  {
    FiredConcat(LazyOf(raw.extensions, name) + LazyOf(raw.plugins, name), LazyOf(raw.mcp, name), event, name);
    FiredConcat(LazyOf(raw.extensions, name), LazyOf(raw.plugins, name), event, name);
    LazyOfFires(raw.extensions, event, name);
    LazyOfFires(raw.plugins, event, name);
    LazyOfFires(raw.mcp, event, name);
  }

  /** Boot: read the registry, fill a new bus. Every event then has the names of the enabled lazy
      entries that list it, one for each listing. */
  method Boot(raw: RawRegistry) returns (index: Index, bus: ActivationEventBus)
    ensures fresh(bus) && Classified(index, AllEntries(raw)) && NoEmptyLists(bus.watchers)
    ensures forall e :: NamesAt(bus.watchers, e) == Listings(index.lazy, e)
    ensures forall e, name ::
              multiset(NamesAt(bus.watchers, e))[name]
              == Listed(raw.extensions, e, name) + Listed(raw.plugins, e, name) + Listed(raw.mcp, e, name)
  {
    index := LoadIndex(raw);
    bus := new ActivationEventBus();
    bus.RegisterFromRegistry(index);
    forall e, name
      ensures multiset(Listings(index.lazy, e))[name]
              == Listed(raw.extensions, e, name) + Listed(raw.plugins, e, name) + Listed(raw.mcp, e, name)
    {
      FiresListed(raw, index, e, name);
    }
  }

  // ---- Removal ----

  lemma {:induction false} WithoutConcat(a: seq<string>, b: seq<string>, name: string)
    ensures Without(a + b, name) == Without(a, name) + Without(b, name)
  {
    if a == [] {
      assert a + b == b;
    } else {
      assert (a + b)[1..] == a[1..] + b;
      WithoutConcat(a[1..], b, name);
    }
  }

  /** Removal keeps every other name as often as it was, and removes this one. */
  lemma {:induction false} WithoutCounts(names: seq<string>, name: string, other: string)
    ensures multiset(Without(names, name))[other] == if other == name then 0 else multiset(names)[other]
  {
    if names != [] {
      WithoutCounts(names[1..], name, other);
      assert names == [names[0]] + names[1..];
    }
  }

  /** Removals commute: the others keep their order whichever name goes first. */
  lemma {:induction false} WithoutCommutes(names: seq<string>, x: string, y: string)
    ensures Without(Without(names, x), y) == Without(Without(names, y), x)
  {
    if names != [] {
      WithoutCommutes(names[1..], x, y);
      WithoutConcat(if names[0] == x then [] else [names[0]], Without(names[1..], x), y);
      WithoutConcat(if names[0] == y then [] else [names[0]], Without(names[1..], y), x);
    }
  }

  /** Removing a name that was just added to lists without it restores every list. */
  lemma RegisterThenDeregister(names: seq<string>, event: string, ev: string, name: string)
    requires name !in names
    ensures ModelRun(names, event, [Register(ev, name), Deregister(name)]) == names
  {
    var r, d := Register(ev, name), Deregister(name);
    var none: seq<Op> := [];
    assert [r, d][..1] == [r] && [r][..0] == none;
    assert ModelRun(names, event, none) == names;
    assert ModelRun(names, event, [r]) == ModelOp(names, event, r);
    WithoutConcat(names, [name], name);
    WithoutNothing(names, name);
    assert Without([name], name) == [];
  }

  lemma {:induction false} WithoutNothing(names: seq<string>, name: string)
    requires name !in names
    ensures Without(names, name) == names
  {
    if names != [] {
      WithoutNothing(names[1..], name);
      assert names == [names[0]] + names[1..];
    }
  }
}
