/**
 * The storage wrapper of the favicon store. It writes through to the browser's storage, any
 * call of which may throw, and shadows the names whose last write did not get there.
 */
module FaviconStorage {
  import opened Options

  type Items = map<string, string>

  datatype State = State(primary: Items, fallback: Items, shadowed: set<string>)

  /** A call that changes something; `throws` is what the browser's storage does with it. */
  datatype Call = SetItem(name: string, value: string, throws: bool) | RemoveItem(name: string, throws: bool)

  function Start(primary: Items): State {
    State(primary, map[], {})
  }

  function Apply(s: State, c: Call): State {
    match c
    case SetItem(name, value, throws) =>
      State(if throws then s.primary else s.primary[name := value], s.fallback[name := value],
            if throws then s.shadowed + {name} else s.shadowed - {name})
    case RemoveItem(name, throws) =>
      State(if throws then s.primary else s.primary - {name}, s.fallback - {name},
            if throws then s.shadowed + {name} else s.shadowed - {name})
  }

  function Run(primary: Items, calls: seq<Call>): State {
    if calls == [] then Start(primary) else Apply(Run(primary, calls[..|calls| - 1]), calls[|calls| - 1])
  }

  function Get(s: State, name: string, throws: bool): Option<string> {
    if name in s.shadowed || throws then Lookup(s.fallback, name) else Lookup(s.primary, name)
  }

  // ---------------------------------------------------------------- the plain map it stands for

  function PlainApply(m: Items, c: Call): Items {
    match c
    case SetItem(name, value, _) => m[name := value]
    case RemoveItem(name, _) => m - {name}
  }

  /** What a map that never throws would hold. */
  function Plain(primary: Items, calls: seq<Call>): Items {
    if calls == [] then primary else PlainApply(Plain(primary, calls[..|calls| - 1]), calls[|calls| - 1])
  }

  /** Some call of this session named `name`. */
  predicate Touched(calls: seq<Call>, name: string) {
    calls != [] && (calls[|calls| - 1].name == name || Touched(calls[..|calls| - 1], name))
  }

  /** The last call of this session that named `name` threw. */
  predicate LastThrew(calls: seq<Call>, name: string) {
    calls != []
    && if calls[|calls| - 1].name == name then calls[|calls| - 1].throws else LastThrew(calls[..|calls| - 1], name)
  }

  /** How the three parts of the wrapper share the plain map between them. */
  lemma {:induction false} Shares(primary: Items, calls: seq<Call>, name: string)
    ensures var s, plain := Run(primary, calls), Lookup(Plain(primary, calls), name);
            && (name in s.shadowed <==> LastThrew(calls, name))
            && (LastThrew(calls, name) ==> Touched(calls, name))
            && (name !in s.shadowed ==> Lookup(s.primary, name) == plain)
            && (Touched(calls, name) ==> Lookup(s.fallback, name) == plain)
            && (!Touched(calls, name) ==> name !in s.fallback && plain == Lookup(primary, name))
  {
    if calls != [] {
      Shares(primary, calls[..|calls| - 1], name);
    }
  }

  /** Whatever writes and removals threw, a read that does not throw sees the plain map. */
  lemma {:induction false} ReadsArePlain(primary: Items, calls: seq<Call>, name: string)
    ensures Get(Run(primary, calls), name, false) == Lookup(Plain(primary, calls), name)
  {
    Shares(primary, calls, name);
  }

  /**
   * A read that throws sees the plain map exactly when this session has named the item or the
   * browser's storage did not hold it at the start; an item of an earlier session is missed.
   */
  lemma {:induction false} FailedReadExactly(primary: Items, calls: seq<Call>, name: string)
    ensures Get(Run(primary, calls), name, true) == Lookup(Plain(primary, calls), name)
            <==> Touched(calls, name) || name !in primary
  {
    Shares(primary, calls, name);
  }

  /** The calls the browser's storage carried out. */
  function Landed(calls: seq<Call>): seq<Call> {
    if calls == [] then []
    else Landed(calls[..|calls| - 1]) + if calls[|calls| - 1].throws then [] else [calls[|calls| - 1]]
  }

  lemma PlainSnoc(primary: Items, calls: seq<Call>, c: Call)
    ensures Plain(primary, calls + [c]) == PlainApply(Plain(primary, calls), c)
  {
    assert (calls + [c])[..|calls|] == calls;
  }

  lemma {:induction false} PrimaryHolds(primary: Items, calls: seq<Call>)
    ensures Run(primary, calls).primary == Plain(primary, Landed(calls))
  {
    if calls != [] {
      var front, c := calls[..|calls| - 1], calls[|calls| - 1];
      PrimaryHolds(primary, front);
      PlainSnoc(primary, Landed(front), c);
      assert Landed(calls) == if c.throws then Landed(front) else Landed(front) + [c];
    }
  }

  /** What the next session finds under any name: what the calls that did not throw left there. */
  lemma {:induction false} NextSessionFinds(primary: Items, calls: seq<Call>, name: string)
    ensures Get(Start(Run(primary, calls).primary), name, false) == Lookup(Plain(primary, Landed(calls)), name)
    ensures !LastThrew(calls, name) ==>
              Get(Start(Run(primary, calls).primary), name, false) == Lookup(Plain(primary, calls), name)
  {
    PrimaryHolds(primary, calls);
    Shares(primary, calls, name);
  }

  class Storage {
    var primary: Items
    var fallback: Items
    var shadowedNames: set<string>

    constructor (primary: Items)
      ensures Snapshot() == Start(primary)
    {
      this.primary := primary;
      fallback := map[];
      shadowedNames := {};
    }

    function Snapshot(): State
      reads this
    {
      State(primary, fallback, shadowedNames)
    }

    method GetItem(name: string, throws: bool) returns (r: Option<string>)
      ensures r == Get(Snapshot(), name, throws)
    {
      if name in shadowedNames {
        return Lookup(fallback, name);
      }
      if throws {
        return Lookup(fallback, name);
      }
      return Lookup(primary, name);
    }

    method SetItem(name: string, value: string, throws: bool)
      modifies this
      ensures Snapshot() == Apply(old(Snapshot()), Call.SetItem(name, value, throws))
    {
      fallback := fallback[name := value];
      if throws {
        shadowedNames := shadowedNames + {name};
      } else {
        primary := primary[name := value];
        shadowedNames := shadowedNames - {name};
      }
    }

    method RemoveItem(name: string, throws: bool)
      modifies this
      ensures Snapshot() == Apply(old(Snapshot()), Call.RemoveItem(name, throws))
    {
      fallback := fallback - {name};
      if throws {
        shadowedNames := shadowedNames + {name};
      } else {
        primary := primary - {name};
        shadowedNames := shadowedNames - {name};
      }
    }
  }
}
