/** The `Chain` algebra of src/gen.js: a generator that enumerates the scope types
    of the scope-composition relation.  A chain is a list of `{kind, lt}` entries plus
    a chain lifetime; the `add_*` transitions return the added part and the new chain,
    or nothing; `try_deref`/`deref` strip one layer; `name_lts` and `serialize_nice`
    render a chain as a Rust type. */
module Chains {
  import opened Outcomes

  datatype Kind = Context | Handle | Escape | TryCatch

  const AllKinds: set<Kind> := {Context, Handle, Escape, TryCatch}

  /** One `{kind, lt}` entry; `lt` is `undefined` (None) when the entry has none. */
  datatype Entry = Entry(kind: Kind, lt: Option<int>)

  /** A `Chain`: the array of entries and its `lt` property. */
  datatype Chain = Chain(lt: int, entries: seq<Entry>)

  /** The `[p, r]` pair returned by an `add_*`: the added part and the resulting chain. */
  datatype Added = Added(part: Chain, result: Chain)

  /** The exceptions the generator can throw. */
  datatype JsError = TypeError | AssertionError

  // ---------------------------------------------------------------------------
  // Filtering

  /** `s.filter(e => ks.has(e.kind))`: the entries whose kind is in `ks`, in order. */
  function Keep(s: seq<Entry>, ks: set<Kind>): (r: seq<Entry>)
    ensures |r| <= |s|
    decreases |s|
  {
    if s == [] then []
    else
      var init, last := s[..|s| - 1], s[|s| - 1];
      Keep(init, ks) + (if last.kind in ks then [last] else [])
  }

  /** The filter keeps exactly the entries whose kind is in `ks`. */
  lemma {:induction false} KeepMembers(s: seq<Entry>, ks: set<Kind>)
    ensures forall e :: e in Keep(s, ks) <==> e in s && e.kind in ks
    decreases |s|
  {
    if s != [] {
      var init, last := s[..|s| - 1], s[|s| - 1];
      assert s == init + [last];
      KeepMembers(init, ks);
    }
  }

  lemma InAllKinds(k: Kind)
    ensures k in AllKinds
  {
  }

  /** The entries of kind `k`, in order. */
  function OfKind(s: seq<Entry>, k: Kind): seq<Entry> {
    Keep(s, {k})
  }

  lemma KeepSingleton(x: Entry, ks: set<Kind>)
    ensures Keep([x], ks) == if x.kind in ks then [x] else []
  {
    assert [x][..0] == [];
  }

  /** Filtering distributes over concatenation: it keeps the relative order. */
  lemma {:induction false} KeepAppend(a: seq<Entry>, b: seq<Entry>, ks: set<Kind>)
    ensures Keep(a + b, ks) == Keep(a, ks) + Keep(b, ks)
    decreases |b|
  {
    if b == [] {
      assert a + b == a;
    } else {
      var b' := b[..|b| - 1];
      assert (a + b)[..|a + b| - 1] == a + b';
      KeepAppend(a, b', ks);
    }
  }

  /** Filtering twice is filtering by the intersection. */
  lemma {:induction false} KeepKeep(s: seq<Entry>, ks1: set<Kind>, ks2: set<Kind>)
    ensures Keep(Keep(s, ks1), ks2) == Keep(s, ks1 * ks2)
    decreases |s|
  {
    if s != [] {
      var init, last := s[..|s| - 1], s[|s| - 1];
      KeepKeep(init, ks1, ks2);
      var tail := if last.kind in ks1 then [last] else [];
      KeepAppend(Keep(init, ks1), tail, ks2);
      if last.kind in ks1 {
        KeepSingleton(last, ks2);
      }
    }
  }

  lemma {:induction false} KeepNothing(s: seq<Entry>)
    ensures Keep(s, {}) == []
    decreases |s|
  {
    if s != [] {
      KeepNothing(s[..|s| - 1]);
    }
  }

  /** The entries of each kind after filtering by `ks`. */
  lemma OfKindAfterKeep(s: seq<Entry>, ks: set<Kind>)
    ensures forall k :: OfKind(Keep(s, ks), k) == if k in ks then OfKind(s, k) else []
  {
    forall k
      ensures OfKind(Keep(s, ks), k) == if k in ks then OfKind(s, k) else []
    {
      KeepKeep(s, ks, {k});
      KeepKeep(s, {k}, ks);
      if k in ks {
        assert ks * {k} == {k};
        KeepKeep(s, {k}, {k});
        assert {k} * {k} == {k};
      } else {
        assert ks * {k} == {};
        KeepNothing(s);
      }
    }
  }

  lemma OfKindAppend(a: seq<Entry>, b: seq<Entry>)
    ensures forall k :: OfKind(a + b, k) == OfKind(a, k) + OfKind(b, k)
  {
    forall k
      ensures OfKind(a + b, k) == OfKind(a, k) + OfKind(b, k)
    {
      KeepAppend(a, b, {k});
    }
  }

  lemma OfKindSingleton(x: Entry)
    ensures forall k :: OfKind([x], k) == if x.kind == k then [x] else []
  {
    forall k
      ensures OfKind([x], k) == if x.kind == k then [x] else []
    {
      KeepSingleton(x, {k});
    }
  }

  lemma OfKindPair(x: Entry, y: Entry)
    ensures forall k ::
      OfKind([x, y], k) == (if x.kind == k then [x] else []) + (if y.kind == k then [y] else [])
  {
    OfKindAppend([x], [y]);
    OfKindSingleton(x);
    OfKindSingleton(y);
    assert [x, y] == [x] + [y];
  }

  /** The entries of a chain that keeps `front` and then `rest` filtered by `ks`. */
  lemma OfKindPrepend(front: seq<Entry>, rest: seq<Entry>, ks: set<Kind>)
    ensures forall k ::
      OfKind(front + Keep(rest, ks), k) == OfKind(front, k) + (if k in ks then OfKind(rest, k) else [])
  {
    OfKindAppend(front, Keep(rest, ks));
    OfKindAfterKeep(rest, ks);
  }

  /** `OfKindPrepend` for one kind. */
  lemma OfKindPrependAt(front: seq<Entry>, rest: seq<Entry>, ks: set<Kind>, k: Kind)
    ensures OfKind(front + Keep(rest, ks), k) == OfKind(front, k) + (if k in ks then OfKind(rest, k) else [])
  {
    OfKindPrepend(front, rest, ks);
  }

  // ---------------------------------------------------------------------------
  // find, find_front, remove

  function FindIn(s: seq<Entry>, k: Kind): Option<Entry> {
    var m := OfKind(s, k);
    if m == [] then None else Some(m[|m| - 1])
  }

  /** `find(kind)`: `this.filter(s => s.kind === kind).pop()`, the last entry of
      the kind, or nothing when there is none. */
  function Find(c: Chain, k: Kind): (r: Option<Entry>)
    ensures r.None? <==> (forall i {:trigger KindAt(c.entries, i)} | 0 <= i < |c.entries| :: KindAt(c.entries, i) != k)
    ensures r.Some? ==>
      exists i :: 0 <= i < |c.entries| && c.entries[i] == r.value && r.value.kind == k
        && (forall j {:trigger KindAt(c.entries, j)} | i < j < |c.entries| :: KindAt(c.entries, j) != k)
  {
    FindIsLast(c.entries, k);
    NoneOfKind(c.entries, k);
    FindIn(c.entries, k)
  }

  /** The kind of the entry at index `i`. */
  function KindAt(s: seq<Entry>, i: int): Kind
    requires 0 <= i < |s|
  {
    s[i].kind
  }

  /** No entry has the kind exactly when no index holds an entry of the kind. */
  lemma NoneOfKind(s: seq<Entry>, k: Kind)
    ensures (forall e :: e in s ==> e.kind != k)
      <==> (forall i {:trigger KindAt(s, i)} | 0 <= i < |s| :: KindAt(s, i) != k)
  {
    if forall i {:trigger KindAt(s, i)} | 0 <= i < |s| :: KindAt(s, i) != k {
      forall e | e in s ensures e.kind != k {
        var i :| 0 <= i < |s| && s[i] == e;
        assert KindAt(s, i) == e.kind;
      }
    }
  }

  /** `find` returns the last entry of the kind, and nothing when there is none. */
  lemma FindIsLast(s: seq<Entry>, k: Kind)
    ensures FindIn(s, k).None? <==> (forall e :: e in s ==> e.kind != k)
    ensures FindIn(s, k).Some? ==>
      exists i :: 0 <= i < |s| && s[i] == FindIn(s, k).value && s[i].kind == k
        && (forall j :: i < j < |s| ==> s[j].kind != k)
  {
    KeepMembers(s, {k});
    if FindIn(s, k).Some? {
      var i := LastOfKind(s, k);
    }
  }

  /** The index of the entry `find` returns: it has the kind, and no later entry does. */
  lemma {:induction false} LastOfKind(s: seq<Entry>, k: Kind) returns (i: nat)
    requires OfKind(s, k) != []
    ensures i < |s| && s[i] == FindIn(s, k).value && s[i].kind == k
    ensures forall j :: i < j < |s| ==> s[j].kind != k
    decreases |s|
  {
    var init, last := s[..|s| - 1], s[|s| - 1];
    assert OfKind(s, k) == OfKind(init, k) + (if last.kind == k then [last] else []);
    if last.kind == k {
      i := |s| - 1;
    } else {
      i := LastOfKind(init, k);
      assert s[i] == init[i];
      forall j | i < j < |s| ensures s[j].kind != k {
        if j < |init| { assert s[j] == init[j]; }
      }
    }
  }

  /** `find_front(kind)`: the first entry if it has the kind, else nothing. */
  function FindFront(c: Chain, k: Kind): (r: Option<Entry>)
    ensures r.Some? <==> |c.entries| > 0 && c.entries[0].kind == k
    ensures r.Some? ==> r.value == c.entries[0]
  {
    if |c.entries| > 0 && c.entries[0].kind == k then Some(c.entries[0]) else None
  }

  /** With at most one entry per kind, `find_front` finds, when it finds anything,
      the same entry as `find`. */
  lemma FindFrontIsFind(c: Chain, k: Kind)
    requires KindsUnique(c)
    ensures FindFront(c, k).Some? ==> Find(c, k) == FindFront(c, k)
  {
    if FindFront(c, k).Some? {
      var s := c.entries;
      assert s == [s[0]] + s[1..];
      OfKindAppend([s[0]], s[1..]);
      OfKindSingleton(s[0]);
      assert OfKind(s, k)[0] == s[0];
      FindIsOfKind(c, k);
    }
  }

  /** `remove(kind)`: a new chain with every entry of the kind dropped. */
  function Remove(c: Chain, k: Kind): (r: Chain)
    ensures r.lt == c.lt
  {
    Chain(c.lt, Keep(c.entries, AllKinds - {k}))
  }

  /** `remove` drops exactly the entries of the kind and keeps the others in order. */
  lemma RemoveKeepsOthers(c: Chain, k: Kind)
    ensures forall e :: e in Remove(c, k).entries <==> e in c.entries && e.kind != k
    ensures OfKind(Remove(c, k).entries, k) == []
    ensures forall k' :: k' != k ==> OfKind(Remove(c, k).entries, k') == OfKind(c.entries, k')
  {
    KeepMembers(c.entries, AllKinds - {k});
    forall e | e in c.entries ensures e.kind in AllKinds {
      InAllKinds(e.kind);
    }
    OfKindAfterKeep(c.entries, AllKinds - {k});
  }

  // ---------------------------------------------------------------------------
  // The add_* transitions

  /** `add_context()`: needs a HandleScope; keeps the lifetime, puts one Context
      in front and drops any earlier Context. */
  function AddContext(c: Chain): (r: Option<Added>)
    ensures r.None? <==> Find(c, Handle).None?
    ensures r.Some? ==> r.value.part == Chain(c.lt, [Entry(Context, None)])
    ensures r.Some? ==> r.value.result.lt == c.lt
    ensures r.Some? ==> |r.value.result.entries| > 0 && r.value.result.entries[0] == Entry(Context, None)
    ensures r.Some? ==> OfKind(r.value.result.entries, Context) == [Entry(Context, None)]
    ensures r.Some? ==> forall k :: k != Context ==> OfKind(r.value.result.entries, k) == OfKind(c.entries, k)
  {
    if Find(c, Handle).None? then None
    else
      var p := Chain(c.lt, [Entry(Context, None)]);
      InFront(Entry(Context, None), c.entries);
      Some(Added(p, Chain(c.lt, p.entries + Remove(c, Context).entries)))
  }

  /** The entries of each kind when `x` is put in front of `rest` with the
      entries of `x`'s kind removed. */
  lemma InFront(x: Entry, rest: seq<Entry>)
    ensures OfKind([x] + Keep(rest, AllKinds - {x.kind}), x.kind) == [x]
    ensures forall k :: k != x.kind ==> OfKind([x] + Keep(rest, AllKinds - {x.kind}), k) == OfKind(rest, k)
  {
    OfKindPrepend([x], rest, AllKinds - {x.kind});
    OfKindSingleton(x);
    forall k | k != x.kind ensures k in AllKinds - {x.kind} {
      InAllKinds(k);
    }
  }

  /** `add_handle()`: refused when there is a HandleScope but no Context (without a
      context only one level deep); otherwise the lifetime grows by one, the new
      Handle goes in front, and earlier Handle and TryCatch entries are dropped. */
  function AddHandle(c: Chain): (r: Option<Added>)
    ensures r.None? <==> Find(c, Context).None? && Find(c, Handle).Some?
    ensures r.Some? ==> r.value.part == Chain(c.lt + 1, [Entry(Handle, Some(c.lt + 1))])
    ensures r.Some? ==> r.value.result.lt == c.lt + 1
    ensures r.Some? ==> |r.value.result.entries| > 0 && r.value.result.entries[0] == Entry(Handle, Some(c.lt + 1))
    ensures r.Some? ==> OfKind(r.value.result.entries, Handle) == [Entry(Handle, Some(c.lt + 1))]
    ensures r.Some? ==> OfKind(r.value.result.entries, TryCatch) == []
    ensures r.Some? ==> OfKind(r.value.result.entries, Context) == OfKind(c.entries, Context)
    ensures r.Some? ==> OfKind(r.value.result.entries, Escape) == OfKind(c.entries, Escape)
  {
    if Find(c, Context).None? && Find(c, Handle).Some? then None
    else
      var lt := c.lt + 1;
      var p := Chain(lt, [Entry(Handle, Some(lt))]);
      HandleInFront(Entry(Handle, Some(lt)), c.entries);
      Some(Added(p, Chain(lt, p.entries + Keep(c.entries, {Context, Escape}))))
  }

  /** The entries of each kind when the Handle `x` is put in front of the
      Context and Escape entries of `rest`. */
  lemma HandleInFront(x: Entry, rest: seq<Entry>)
    requires x.kind == Handle
    ensures OfKind([x] + Keep(rest, {Context, Escape}), Handle) == [x]
    ensures OfKind([x] + Keep(rest, {Context, Escape}), TryCatch) == []
    ensures OfKind([x] + Keep(rest, {Context, Escape}), Context) == OfKind(rest, Context)
    ensures OfKind([x] + Keep(rest, {Context, Escape}), Escape) == OfKind(rest, Escape)
  {
    var ks := {Context, Escape};
    OfKindPrependAt([x], rest, ks, Handle);
    OfKindPrependAt([x], rest, ks, TryCatch);
    OfKindPrependAt([x], rest, ks, Context);
    OfKindPrependAt([x], rest, ks, Escape);
    KeepSingleton(x, {Handle});
    KeepSingleton(x, {TryCatch});
    KeepSingleton(x, {Context});
    KeepSingleton(x, {Escape});
  }

  /** `add_escapable_handle()`: needs a Context and a HandleScope with a lifetime;
      the Escape entry takes the lifetime of the last HandleScope, and earlier
      Handle, Escape and TryCatch entries are dropped. */
  function AddEscapableHandle(c: Chain): (r: Option<Added>)
    ensures r.None? <==> Find(c, Context).None? || Find(c, Handle).None? || Find(c, Handle).value.lt.None?
    ensures r.Some? ==> r.value.part == Chain(c.lt + 1, [Entry(Handle, Some(c.lt + 1)), Entry(Escape, Find(c, Handle).value.lt)])
    ensures r.Some? ==> r.value.result.lt == c.lt + 1
    ensures r.Some? ==> |r.value.result.entries| >= 2 && r.value.result.entries[..2] == r.value.part.entries
    ensures r.Some? ==> OfKind(r.value.result.entries, Handle) == [Entry(Handle, Some(c.lt + 1))]
    ensures r.Some? ==> OfKind(r.value.result.entries, Escape) == [Entry(Escape, Find(c, Handle).value.lt)]
    ensures r.Some? ==> OfKind(r.value.result.entries, TryCatch) == []
    ensures r.Some? ==> OfKind(r.value.result.entries, Context) == OfKind(c.entries, Context)
  {
    if Find(c, Context).None? then None
    else if Find(c, Handle).None? || Find(c, Handle).value.lt.None? then None
    else
      var lt := c.lt + 1;
      var escapeLt := Find(c, Handle).value.lt;
      var p := Chain(lt, [Entry(Handle, Some(lt)), Entry(Escape, escapeLt)]);
      OfKindPrepend(p.entries, c.entries, {Context});
      OfKindPair(Entry(Handle, Some(lt)), Entry(Escape, escapeLt));
      Some(Added(p, Chain(lt, p.entries + Keep(c.entries, {Context}))))
  }

  /** `add_try_catch()`: needs a Context and a HandleScope; the lifetime grows by
      one and only earlier TryCatch entries are dropped. */
  function AddTryCatch(c: Chain): (r: Option<Added>)
    ensures r.None? <==> Find(c, Context).None? || Find(c, Handle).None?
    ensures r.Some? ==> r.value.part == Chain(c.lt + 1, [Entry(TryCatch, Some(c.lt + 1))])
    ensures r.Some? ==> r.value.result.lt == c.lt + 1
    ensures r.Some? ==> |r.value.result.entries| > 0 && r.value.result.entries[0] == Entry(TryCatch, Some(c.lt + 1))
    ensures r.Some? ==> OfKind(r.value.result.entries, TryCatch) == [Entry(TryCatch, Some(c.lt + 1))]
    ensures r.Some? ==> forall k :: k != TryCatch ==> OfKind(r.value.result.entries, k) == OfKind(c.entries, k)
  {
    if Find(c, Context).None? then None
    else if Find(c, Handle).None? then None
    else
      var lt := c.lt + 1;
      var p := Chain(lt, [Entry(TryCatch, Some(lt))]);
      InFront(Entry(TryCatch, Some(lt)), c.entries);
      Some(Added(p, Chain(lt, p.entries + Remove(c, TryCatch).entries)))
  }

  /** `add_all()`: the four transitions, in the order the generator yields them. */
  function AddAll(c: Chain): (r: seq<Option<Added>>)
    ensures |r| == 4
    ensures WellFormed(c) ==> forall a | a in r :: a.Some? ==> WellFormed(a.value.result)
  {
    if WellFormed(c) then
      TransitionsWellFormed(c);
      [AddContext(c), AddHandle(c), AddEscapableHandle(c), AddTryCatch(c)]
    else
      [AddContext(c), AddHandle(c), AddEscapableHandle(c), AddTryCatch(c)]
  }

  /** Each of the four transitions keeps a chain well formed. */
  lemma TransitionsWellFormed(c: Chain)
    requires WellFormed(c)
    ensures AddContext(c).Some? ==> WellFormed(AddContext(c).value.result)
    ensures AddHandle(c).Some? ==> WellFormed(AddHandle(c).value.result)
    ensures AddEscapableHandle(c).Some? ==> WellFormed(AddEscapableHandle(c).value.result)
    ensures AddTryCatch(c).Some? ==> WellFormed(AddTryCatch(c).value.result)
  {
    if AddContext(c).Some? { AddContextWellFormed(c); }
    if AddHandle(c).Some? { AddHandleWellFormed(c); }
    if AddEscapableHandle(c).Some? { AddEscapableHandleWellFormed(c); }
    if AddTryCatch(c).Some? { AddTryCatchWellFormed(c); }
  }

  // ---------------------------------------------------------------------------
  // try_deref, deref

  /** The order in which `try_deref` strips layers. */
  function Priority(k: Kind): nat {
    match k
    case TryCatch => 0
    case Escape => 1
    case Context => 2
    case Handle => 3
  }

  /** `d` is `c` with its layer `k` stripped: `c` has a `k`, and no kind that
      `try_deref` strips before `k`. */
  predicate StripsLayer(c: Chain, k: Kind, d: Chain) {
    && Find(c, k).Some?
    && d == Remove(c, k)
    && forall k' :: Priority(k') < Priority(k) ==> Find(c, k').None?
  }

  /** `try_deref()`: removes the kind of highest priority the chain has
      (TryCatch, then Escape, then Context, then Handle); nothing for an empty chain. */
  function TryDeref(c: Chain): (r: Option<Chain>)
    ensures r.None? <==> c.entries == []
    ensures r.Some? ==> exists k :: StripsLayer(c, k, r.value)
  {
    EmptyIffNoKind(c.entries);
    if Find(c, TryCatch).Some? then
      assert StripsLayer(c, TryCatch, Remove(c, TryCatch));
      Some(Remove(c, TryCatch))
    else if Find(c, Escape).Some? then
      assert StripsLayer(c, Escape, Remove(c, Escape));
      Some(Remove(c, Escape))
    else if Find(c, Context).Some? then
      assert StripsLayer(c, Context, Remove(c, Context));
      Some(Remove(c, Context))
    else if Find(c, Handle).Some? then
      assert StripsLayer(c, Handle, Remove(c, Handle));
      Some(Remove(c, Handle))
    else None
  }

  /** A chain is empty exactly when `find` finds none of the four kinds in it. */
  lemma EmptyIffNoKind(s: seq<Entry>)
    ensures s == [] <==>
      FindIn(s, TryCatch).None? && FindIn(s, Escape).None? && FindIn(s, Context).None? && FindIn(s, Handle).None?
  {
    if s != [] {
      KeepMembers(s, {s[0].kind});
      assert s[0] in OfKind(s, s[0].kind);
      match s[0].kind
      case TryCatch =>
      case Escape =>
      case Context =>
      case Handle =>
    }
  }

  /** `r.map(s => s.lt).filter(Boolean)`: the lifetimes that are defined and not 0. */
  function TruthyLts(s: seq<Entry>): seq<int>
    decreases |s|
  {
    if s == [] then []
    else
      var last := s[|s| - 1];
      TruthyLts(s[..|s| - 1]) + (if last.lt.Some? && last.lt.value != 0 then [last.lt.value] else [])
  }

  /** `Math.max(floor, ...xs)`. */
  function JsMax(floor: int, xs: seq<int>): int
    decreases |xs|
  {
    if xs == [] then floor
    else
      var m := JsMax(floor, xs[..|xs| - 1]);
      if xs[|xs| - 1] > m then xs[|xs| - 1] else m
  }

  lemma {:induction false} TruthyLtsMembers(s: seq<Entry>)
    ensures forall e :: e in s && e.lt.Some? && e.lt.value != 0 ==> e.lt.value in TruthyLts(s)
    ensures forall x :: x in TruthyLts(s) ==> exists e :: e in s && e.lt == Some(x)
    decreases |s|
  {
    if s != [] {
      var init, last := s[..|s| - 1], s[|s| - 1];
      assert s == init + [last];
      TruthyLtsMembers(init);
    }
  }

  lemma {:induction false} JsMaxBounds(floor: int, xs: seq<int>)
    ensures JsMax(floor, xs) >= floor
    ensures forall x :: x in xs ==> x <= JsMax(floor, xs)
    ensures JsMax(floor, xs) == floor || JsMax(floor, xs) in xs
    decreases |xs|
  {
    if xs != [] {
      var init := xs[..|xs| - 1];
      assert xs == init + [xs[|xs| - 1]];
      JsMaxBounds(floor, init);
    }
  }

  /** `Math.max(0, ...)` over the truthy lifetimes is the largest defined
      lifetime, with a floor of 0: dropping the zeros does not change it. */
  lemma MaxOfTruthyLts(s: seq<Entry>)
    ensures JsMax(0, TruthyLts(s)) >= 0
    ensures forall e :: e in s && e.lt.Some? ==> e.lt.value <= JsMax(0, TruthyLts(s))
    ensures JsMax(0, TruthyLts(s)) == 0
      || exists e :: e in s && e.lt == Some(JsMax(0, TruthyLts(s)))
  {
    TruthyLtsMembers(s);
    JsMaxBounds(0, TruthyLts(s));
  }

  /** `deref()`: strips one layer. Throws a TypeError on an empty chain (where
      `try_deref` returns undefined); returns nothing when the stripped chain is
      empty; otherwise sets the lifetime to the largest entry lifetime, floor 0. */
  function Deref(c: Chain): (r: Result<Option<Chain>, JsError>)
    ensures r.Failure? <==> c.entries == []
    ensures r.Failure? ==> r.error == TypeError
    ensures r.Success? ==> (r.value.None? <==> TryDeref(c).value.entries == [])
    ensures r.Success? && r.value.Some? ==>
      var d := r.value.value;
      && d.entries == TryDeref(c).value.entries
      && 0 <= d.lt
      && (forall e :: e in d.entries && e.lt.Some? ==> e.lt.value <= d.lt)
      && (d.lt == 0 || exists e :: e in d.entries && e.lt == Some(d.lt))
  {
    match TryDeref(c)
    case None => Failure(TypeError)
    case Some(r) =>
      if |r.entries| == 0 then Success(None)
      else
        MaxOfTruthyLts(r.entries);
        Success(Some(Chain(JsMax(0, TruthyLts(r.entries)), r.entries)))
  }

  // ---------------------------------------------------------------------------
  // Well-formed chains: the ones the generator reaches from `new Chain()`

  predicate Present(c: Chain, k: Kind) {
    OfKind(c.entries, k) != []
  }

  /** The lifetime of the (last) entry of the kind, if there is one and it has one. */
  function LtOf(c: Chain, k: Kind): Option<int> {
    match Find(c, k)
    case None => None
    case Some(e) => e.lt
  }

  /** Exactly the Context entries lack a lifetime, and entry lifetimes lie in 1..lt. */
  predicate EntriesShaped(c: Chain) {
    forall e :: e in c.entries ==>
      && (e.kind == Context <==> e.lt.None?)
      && (e.lt.Some? ==> 1 <= e.lt.value <= c.lt)
  }

  predicate KindsUnique(c: Chain) {
    forall k :: |OfKind(c.entries, k)| <= 1
  }

  /** A Context needs a HandleScope, a TryCatch a Context, and an Escape a
      HandleScope younger than the lifetime it escapes to. */
  predicate LayersNested(c: Chain) {
    && (Present(c, Context) ==> Present(c, Handle))
    && (Present(c, TryCatch) ==> Present(c, Context))
    && (Present(c, Escape) ==>
          && Present(c, Handle)
          && LtOf(c, Escape).Some? && LtOf(c, Handle).Some?
          && LtOf(c, Escape).value < LtOf(c, Handle).value)
  }

  predicate WellFormed(c: Chain) {
    0 <= c.lt && EntriesShaped(c) && KindsUnique(c) && LayersNested(c)
  }

  lemma FindIsOfKind(c: Chain, k: Kind)
    ensures Find(c, k).Some? <==> Present(c, k)
    ensures |OfKind(c.entries, k)| == 1 ==> Find(c, k) == Some(OfKind(c.entries, k)[0])
    ensures Find(c, k).Some? ==> Find(c, k).value in c.entries && Find(c, k).value.kind == k
  {
    if Find(c, k).Some? {
      var m := OfKind(c.entries, k);
      KeepMembers(c.entries, {k});
      assert m[|m| - 1] in m;
    }
  }

  /** In a well-formed chain a present lifetime is at most the chain's. */
  lemma LtOfBounded(c: Chain, k: Kind)
    requires EntriesShaped(c)
    ensures LtOf(c, k).Some? ==> 1 <= LtOf(c, k).value <= c.lt
  {
    FindIsOfKind(c, k);
  }

  /** The chain the generator starts from, `new Chain()`. */
  lemma EmptyChainWellFormed()
    ensures WellFormed(Chain(0, []))
  {
    forall k ensures OfKind([], k) == [] { }
  }

  /** The members of a chain built as `front + Keep(rest, ks)`. */
  lemma PrependedEntries(front: seq<Entry>, rest: seq<Entry>, ks: set<Kind>)
    ensures forall e :: e in front + Keep(rest, ks) <==> e in front || (e in rest && e.kind in ks)
  {
    KeepMembers(rest, ks);
  }

  lemma AddContextWellFormed(c: Chain)
    requires WellFormed(c) && AddContext(c).Some?
    ensures WellFormed(AddContext(c).value.result)
  {
    var r := AddContext(c).value.result;
    assert EntriesShaped(r) by {
      PrependedEntries([Entry(Context, None)], c.entries, AllKinds - {Context});
    }
    assert LayersNested(r) by {
      forall k | k != Context ensures Find(r, k) == Find(c, k) {
        assert OfKind(r.entries, k) == OfKind(c.entries, k);
      }
      FindIsOfKind(c, Handle);
    }
  }

  lemma AddHandleWellFormed(c: Chain)
    requires WellFormed(c) && AddHandle(c).Some?
    ensures WellFormed(AddHandle(c).value.result)
  {
    var r := AddHandle(c).value.result;
    assert EntriesShaped(r) by {
      PrependedEntries([Entry(Handle, Some(c.lt + 1))], c.entries, {Context, Escape});
    }
    assert KindsUnique(r) by {
      forall k ensures |OfKind(r.entries, k)| <= 1 {
        match k
        case Context =>
        case Handle =>
        case Escape =>
        case TryCatch =>
      }
    }
    assert LayersNested(r) by {
      assert Find(r, Escape) == Find(c, Escape);
      FindIsOfKind(r, Handle);
      LtOfBounded(c, Escape);
    }
  }

  lemma AddEscapableHandleWellFormed(c: Chain)
    requires WellFormed(c) && AddEscapableHandle(c).Some?
    ensures WellFormed(AddEscapableHandle(c).value.result)
  {
    var r := AddEscapableHandle(c).value.result;
    FindIsOfKind(c, Handle);
    var front := [Entry(Handle, Some(c.lt + 1)), Entry(Escape, LtOf(c, Handle))];
    assert r.entries == front + Keep(c.entries, {Context});
    EscapableEntriesShaped(c, front, r);
    assert KindsUnique(r) by {
      forall k ensures |OfKind(r.entries, k)| <= 1 {
        match k
        case Context =>
        case Handle =>
        case Escape =>
        case TryCatch =>
      }
    }
    assert LayersNested(r) by {
      FindIsOfKind(r, Handle);
      FindIsOfKind(r, Escape);
    }
  }

  lemma EscapableEntriesShaped(c: Chain, front: seq<Entry>, r: Chain)
    requires EntriesShaped(c) && 0 <= c.lt
    requires LtOf(c, Handle).Some? && LtOf(c, Handle).value <= c.lt && 1 <= LtOf(c, Handle).value
    requires front == [Entry(Handle, Some(c.lt + 1)), Entry(Escape, LtOf(c, Handle))]
    requires r == Chain(c.lt + 1, front + Keep(c.entries, {Context}))
    ensures EntriesShaped(r)
  {
    PrependedEntries(front, c.entries, {Context});
  }

  lemma AddTryCatchWellFormed(c: Chain)
    requires WellFormed(c) && AddTryCatch(c).Some?
    ensures WellFormed(AddTryCatch(c).value.result)
  {
    var r := AddTryCatch(c).value.result;
    PrependShaped(c, Entry(TryCatch, Some(c.lt + 1)), AllKinds - {TryCatch}, r);
    SameKind(c, r, Context);
    SameKind(c, r, Handle);
    SameKind(c, r, Escape);
    FindIsOfKind(c, Context);
  }

  /** Putting a well-shaped entry in front of some of a well-shaped chain's
      entries, under a lifetime at least the chain's, gives a well-shaped chain. */
  lemma PrependShaped(c: Chain, x: Entry, ks: set<Kind>, r: Chain)
    requires EntriesShaped(c) && c.lt <= r.lt && r.entries == [x] + Keep(c.entries, ks)
    requires (x.kind == Context <==> x.lt.None?) && (x.lt.Some? ==> 1 <= x.lt.value <= r.lt)
    ensures EntriesShaped(r)
  {
    PrependedEntries([x], c.entries, ks);
  }

  /** Chains with the same entries of a kind agree on its `find`, presence and lifetime. */
  lemma SameKind(c: Chain, d: Chain, k: Kind)
    requires OfKind(c.entries, k) == OfKind(d.entries, k)
    ensures Find(c, k) == Find(d, k) && Present(c, k) == Present(d, k) && LtOf(c, k) == LtOf(d, k)
  {
  }

  /** Removing a kind leaves every other kind's `find` and presence alone. */
  lemma RemoveFinds(c: Chain, k: Kind)
    ensures !Present(Remove(c, k), k)
    ensures forall k' :: k' != k ==> Find(Remove(c, k), k') == Find(c, k') && (Present(Remove(c, k), k') <==> Present(c, k'))
  {
    RemoveKeepsOthers(c, k);
    forall k' | k' != k
      ensures Find(Remove(c, k), k') == Find(c, k') && (Present(Remove(c, k), k') <==> Present(c, k'))
    {
      assert OfKind(Remove(c, k).entries, k') == OfKind(c.entries, k');
    }
  }

  /** The entries left after stripping a layer still have the shape of a
      well-formed chain under any lifetime that bounds them. */
  lemma StrippedShaped(c: Chain, k: Kind, d: Chain)
    requires EntriesShaped(c) && d.entries == Remove(c, k).entries
    requires forall e :: e in d.entries && e.lt.Some? ==> e.lt.value <= d.lt
    ensures EntriesShaped(d)
  {
    RemoveKeepsOthers(c, k);
  }

  lemma StrippedUnique(c: Chain, k: Kind, d: Chain)
    requires KindsUnique(c) && d.entries == Remove(c, k).entries
    ensures KindsUnique(d)
  {
    RemoveKeepsOthers(c, k);
    forall k' ensures |OfKind(d.entries, k')| <= 1 {
      assert |OfKind(c.entries, k')| <= 1;
    }
  }

  /** Stripping the layer of highest priority keeps the layers nested. */
  lemma StrippedNested(c: Chain, k: Kind, d: Chain)
    requires LayersNested(c) && StripsLayer(c, k, Remove(c, k)) && d.entries == Remove(c, k).entries
    ensures LayersNested(d)
  {
    var r := Remove(c, k);
    RemoveFinds(c, k);
    FindIsOfKind(c, TryCatch);
    FindIsOfKind(c, Escape);
    FindIsOfKind(c, Context);
    assert LayersNested(r) by {
      assert Present(r, Context) ==> Present(r, Handle);
      assert Present(r, TryCatch) ==> Present(r, Context);
    }
  }

  /** On a well-formed chain `deref` never throws on a non-empty chain, and what
      it returns is well formed again. */
  lemma DerefWellFormed(c: Chain)
    requires WellFormed(c) && c.entries != []
    ensures Deref(c).Success?
    ensures Deref(c).value.Some? ==> WellFormed(Deref(c).value.value)
  {
    if Deref(c).value.Some? {
      var d := Deref(c).value.value;
      var k :| StripsLayer(c, k, TryDeref(c).value);
      StrippedShaped(c, k, d);
      StrippedUnique(c, k, d);
      StrippedNested(c, k, d);
    }
  }

  // ---------------------------------------------------------------------------
  // serialize_nice, serialize

  /** `${named_lts.get(lt)}`: the name of a lifetime, or "undefined". */
  function LtName(names: map<int, string>, lt: Option<int>): string {
    if lt.Some? && lt.value in names then names[lt.value] else "undefined"
  }

  /** The handle-scope layer of `serialize_nice` around the context layer `scope`. */
  function HandleLayer(names: map<int, string>, e: Option<Entry>, h: Option<Entry>, scope: string): string
    requires e.Some? ==> h.Some?
  {
    if e.Some? then "EscapableHandleScope<" + LtName(names, h.value.lt) + ", " + LtName(names, e.value.lt) + ", " + scope + ">"
    else if h.Some? then "HandleScope<" + LtName(names, h.value.lt) + ", " + scope + ">"
    else scope
  }

  /** The try/catch layer of `serialize_nice`, outermost. */
  function TryCatchLayer(names: map<int, string>, t: Option<Entry>, scope: string): string {
    if t.Some? then "TryCatch<" + LtName(names, t.value.lt) + ", " + scope + ">" else scope
  }

  /** `serialize_nice(named_lts)`: renders the chain as a Rust type.  Throws a
      TypeError when there is an Escape but no Handle (`h.lt` of undefined); the
      closing `assert(a.length === 0)` is the AssertionError. */
  function SerializeNice(c: Chain, names: map<int, string>): (r: Result<string, JsError>)
    ensures r != Failure(AssertionError)
    ensures r.Failure? <==> Find(c, Escape).Some? && Find(c, Handle).None?
    ensures r.Success? ==> (StartsWith(r.value, "TryCatch<") <==> Find(c, TryCatch).Some?)
  {
    RemovalsOfSerializeNice(c);
    var context := if Find(c, Context).Some? then "Context" else "()";
    var a := Remove(c, Context);
    var e := Find(a, Escape);
    var a := Remove(a, Escape);
    var h := Find(a, Handle);
    var a := Remove(a, Handle);
    if e.Some? && h.None? then Failure(TypeError)
    else
      HandleLayerStart(names, e, h, context);
      var scope := HandleLayer(names, e, h, context);
      var t := Find(a, TryCatch);
      TryCatchLayerStart(names, t, scope);
      var scope := TryCatchLayer(names, t, scope);
      var a := Remove(a, TryCatch);
      if |a.entries| != 0 then Failure(AssertionError) else Success(scope)
  }

  /** Below the try/catch layer no rendering starts with a `T`. */
  lemma HandleLayerStart(names: map<int, string>, e: Option<Entry>, h: Option<Entry>, scope: string)
    requires e.Some? ==> h.Some?
    requires scope == "Context" || scope == "()"
    ensures |HandleLayer(names, e, h, scope)| > 0 && HandleLayer(names, e, h, scope)[0] != 'T'
  {
  }

  lemma TryCatchLayerStart(names: map<int, string>, t: Option<Entry>, scope: string)
    requires |scope| > 0 && scope[0] != 'T'
    ensures StartsWith(TryCatchLayer(names, t, scope), "TryCatch<") <==> t.Some?
  {
    if t.None? {
      assert TryCatchLayer(names, t, scope)[0] != 'T';
    }
  }

  /** The chains `serialize_nice` looks at, one `remove` after another. */
  lemma RemovalsOfSerializeNice(c: Chain)
    ensures Find(Remove(c, Context), Escape) == Find(c, Escape)
    ensures Find(Remove(Remove(c, Context), Escape), Handle) == Find(c, Handle)
    ensures Find(Remove(Remove(Remove(c, Context), Escape), Handle), TryCatch) == Find(c, TryCatch)
    ensures Remove(Remove(Remove(Remove(c, Context), Escape), Handle), TryCatch).entries == []
  {
    var a1 := Remove(c, Context);
    var a2 := Remove(a1, Escape);
    var a3 := Remove(a2, Handle);
    var a4 := Remove(a3, TryCatch);
    RemoveKeepsOthers(c, Context);
    RemoveKeepsOthers(a1, Escape);
    RemoveKeepsOthers(a2, Handle);
    RemoveKeepsOthers(a3, TryCatch);
    assert OfKind(a1.entries, Escape) == OfKind(c.entries, Escape);
    assert OfKind(a2.entries, Handle) == OfKind(c.entries, Handle);
    assert OfKind(a3.entries, TryCatch) == OfKind(c.entries, TryCatch);
    EmptyIffNoKind(a4.entries);
  }

  predicate StartsWith(s: string, prefix: string) {
    |prefix| <= |s| && s[..|prefix|] == prefix
  }

  /** A well-formed chain always serializes. */
  lemma WellFormedSerializes(c: Chain, names: map<int, string>)
    requires WellFormed(c)
    ensures SerializeNice(c, names).Success?
  {
    FindIsOfKind(c, Escape);
    FindIsOfKind(c, Handle);
  }

  /** `serialize(named_lts)`: undefined for an empty chain, else `serialize_nice`. */
  function Serialize(c: Chain, names: map<int, string>): (r: Result<Option<string>, JsError>)
    ensures r == Success(None) <==> c.entries == []
    ensures c.entries != [] ==> r.Success? == SerializeNice(c, names).Success?
    ensures r.Success? && r.value.Some? ==> r.value.value == SerializeNice(c, names).value
    ensures r.Failure? ==> r.error == SerializeNice(c, names).error
  {
    if |c.entries| == 0 then Success(None)
    else match SerializeNice(c, names)
      case Failure(err) => Failure(err)
      case Success(s) => Success(Some(s))
  }

  // ---------------------------------------------------------------------------
  // gather_lts, name_lts

  /** The lifetimes `gather_lts` adds: the chain's own and every defined entry lifetime. */
  function Lts(c: Chain): set<int> {
    {c.lt} + set e | e in c.entries && e.lt.Some? :: e.lt.value
  }

  function AllLts(chains: seq<Chain>): set<int>
    decreases |chains|
  {
    if chains == [] then {} else AllLts(chains[..|chains| - 1]) + Lts(chains[|chains| - 1])
  }

  predicate Distinct(xs: seq<int>) {
    forall i, j :: 0 <= i < j < |xs| ==> xs[i] != xs[j]
  }

  function Members(xs: seq<int>): set<int> {
    set x | x in xs
  }

  /** A JavaScript `Set` of lifetimes: its elements, in insertion order. */
  class LtSet {
    var elements: seq<int>

    predicate Valid()
      reads this
    {
      Distinct(elements)
    }

    constructor ()
      ensures Valid() && elements == []
    {
      elements := [];
    }

    /** `add(x)`: appends `x` unless it is already an element. */
    method Add(x: int)
      requires Valid()
      modifies this
      ensures Valid()
      ensures elements == if x in old(elements) then old(elements) else old(elements) + [x]
      ensures Members(elements) == Members(old(elements)) + {x}
    {
      if x !in elements {
        elements := elements + [x];
      }
    }
  }

  /** `gather_lts(lt_set)`: adds the chain's lifetime, then every defined entry
      lifetime; earlier elements keep their place. */
  method GatherLts(c: Chain, ltSet: LtSet)
    requires ltSet.Valid()
    modifies ltSet
    ensures ltSet.Valid()
    ensures old(ltSet.elements) <= ltSet.elements
    ensures Members(ltSet.elements) == Members(old(ltSet.elements)) + Lts(c)
  {
    ltSet.Add(c.lt);
    var i := 0;
    while i < |c.entries|
      invariant 0 <= i <= |c.entries|
      invariant ltSet.Valid()
      invariant old(ltSet.elements) <= ltSet.elements
      invariant Members(ltSet.elements)
        == Members(old(ltSet.elements)) + {c.lt} + set e | e in c.entries[..i] && e.lt.Some? :: e.lt.value
    {
      assert c.entries[..i + 1] == c.entries[..i] + [c.entries[i]];
      if c.entries[i].lt.Some? {
        ltSet.Add(c.entries[i].lt.value);
      }
      i := i + 1;
    }
    assert c.entries[..i] == c.entries;
  }

  /** A UTF-16 code unit as a character; a lone surrogate, which a Dafny string
      cannot hold, becomes U+FFFD. */
  function CodeUnitChar(u: int): char
    requires 0 <= u < 0x1_0000
  {
    if 0xD800 <= u < 0xE000 then '�' else u as char
  }

  /** `"'" + String.fromCharCode("a".charCodeAt(0) + index)`. */
  function Label(index: nat): string {
    "'" + [CodeUnitChar((97 + index) % 0x1_0000)]
  }

  /** Below this many lifetimes every label is a distinct character. */
  const LabelLimit: nat := 0xD800 - 97

  lemma LabelInjective(i: nat, j: nat)
    requires i < LabelLimit && j < LabelLimit && i != j
    ensures Label(i) != Label(j)
  {
    assert Label(i)[1] != Label(j)[1];
  }

  /** The position of `x` among `lts` sorted in descending order. */
  function Rank(lts: set<int>, x: int): nat {
    |set y | y in lts && y > x|
  }

  predicate StrictlyDescending(r: seq<int>) {
    forall i, j :: 0 <= i < j < |r| ==> r[i] > r[j]
  }

  /** Inserts `x` into a strictly descending sequence that lacks it. */
  function Insert(x: int, xs: seq<int>): (r: seq<int>)
    requires StrictlyDescending(xs) && x !in xs
    ensures StrictlyDescending(r)
    ensures |r| == |xs| + 1
    ensures forall y :: y in r <==> y == x || y in xs
  {
    if xs == [] then [x]
    else if x > xs[0] then [x] + xs
    else
      var rest := Insert(x, xs[1..]);
      var r := [xs[0]] + rest;
      assert StrictlyDescending(r) by {
        forall i, j | 0 <= i < j < |r| ensures r[i] > r[j] {
          assert r[j] == rest[j - 1] && rest[j - 1] in rest;
          if i > 0 { assert r[i] == rest[i - 1]; }
        }
      }
      r
  }

  /** `[...lts].sort((a, b) => b - a)` for the distinct elements of a `Set`. */
  function SortDescending(xs: seq<int>): (r: seq<int>)
    requires Distinct(xs)
    ensures StrictlyDescending(r)
    ensures |r| == |xs|
    ensures forall y :: y in r <==> y in xs
    decreases |xs|
  {
    if xs == [] then []
    else
      var init := xs[..|xs| - 1];
      assert xs == init + [xs[|xs| - 1]];
      Insert(xs[|xs| - 1], SortDescending(init))
  }

  /** `numbered_lts.map((lt, index) => [lt, label(index)])` as a `Map`. */
  function Numbered(xs: seq<int>): (names: map<int, string>)
    requires Distinct(xs)
    ensures names.Keys == Members(xs)
    ensures forall j :: 0 <= j < |xs| ==> names[xs[j]] == Label(j)
    decreases |xs|
  {
    if xs == [] then map[]
    else
      var init, last := xs[..|xs| - 1], xs[|xs| - 1];
      DistinctInit(xs);
      var names := Numbered(init);
      NumberLast(xs, names);
      names[last := Label(|xs| - 1)]
  }

  /** Dropping the last element keeps the elements distinct. */
  lemma DistinctInit(xs: seq<int>)
    requires Distinct(xs) && xs != []
    ensures Distinct(xs[..|xs| - 1])
  {
  }

  /** Naming the last element extends a naming of the others to all of `xs`. */
  lemma NumberLast(xs: seq<int>, names: map<int, string>)
    requires Distinct(xs) && xs != []
    requires names.Keys == Members(xs[..|xs| - 1])
    requires forall j :: 0 <= j < |xs| - 1 ==> names[xs[..|xs| - 1][j]] == Label(j)
    ensures names[xs[|xs| - 1] := Label(|xs| - 1)].Keys == Members(xs)
    ensures forall j :: 0 <= j < |xs| ==> names[xs[|xs| - 1] := Label(|xs| - 1)][xs[j]] == Label(j)
  {
    var init, last := xs[..|xs| - 1], xs[|xs| - 1];
    assert xs == init + [last];
    forall j | 0 <= j < |xs|
      ensures names[last := Label(|xs| - 1)][xs[j]] == Label(j)
    {
      if j < |init| {
        assert xs[j] == init[j] && xs[j] != last;
      }
    }
  }

  lemma {:induction false} DescendingCardinality(r: seq<int>)
    requires StrictlyDescending(r)
    ensures |Members(r)| == |r|
    decreases |r|
  {
    if r != [] {
      var tail := r[1..];
      DescendingCardinality(tail);
      assert Members(r) == {r[0]} + Members(tail);
      assert r[0] !in Members(tail);
    }
  }

  /** In a descending sort of `lts`, the element at position `i` has rank `i`. */
  lemma RankIsPosition(lts: set<int>, r: seq<int>, i: nat)
    requires StrictlyDescending(r) && Members(r) == lts
    requires i < |r|
    ensures Rank(lts, r[i]) == i
  {
    var prefix := r[..i];
    DescendingCardinality(prefix);
    assert (set y | y in lts && y > r[i]) == Members(prefix) by {
      forall y | y in lts && y > r[i] ensures y in prefix {
        var j :| 0 <= j < |r| && r[j] == y;
        assert prefix[j] == y;
      }
    }
  }

  /** `name_lts(...chains)`: gathers every lifetime of the chains into a `Set`,
      sorts them in descending order and names them `'a`, `'b`, ... */
  method NameLts(chains: seq<Chain>) returns (names: map<int, string>)
    ensures names.Keys == AllLts(chains)
    ensures forall x :: x in names ==> names[x] == Label(Rank(AllLts(chains), x))
  {
    var ltSet := new LtSet();
    var i := 0;
    while i < |chains|
      invariant 0 <= i <= |chains|
      invariant ltSet.Valid()
      invariant Members(ltSet.elements) == AllLts(chains[..i])
    {
      assert chains[..i + 1][..i] == chains[..i];
      GatherLts(chains[i], ltSet);
      i := i + 1;
    }
    assert chains[..i] == chains;
    var numbered := SortDescending(ltSet.elements);
    assert Members(numbered) == Members(ltSet.elements);
    names := Numbered(numbered);
    NumberedByRank(numbered);
  }

  /** Numbering a descending sort names every element by its rank. */
  lemma NumberedByRank(xs: seq<int>)
    requires StrictlyDescending(xs)
    ensures Distinct(xs)
    ensures forall x :: x in Numbered(xs) ==> Numbered(xs)[x] == Label(Rank(Members(xs), x))
  {
    assert Distinct(xs);
    var names := Numbered(xs);
    forall x | x in names ensures names[x] == Label(Rank(Members(xs), x)) {
      assert x in xs;
      var j :| 0 <= j < |xs| && xs[j] == x;
      RankIsPosition(Members(xs), xs, j);
    }
  }

  /** The largest lifetime is named `'a`. */
  lemma LargestIsA(lts: set<int>, x: int)
    requires x in lts && forall y :: y in lts ==> y <= x
    ensures Label(Rank(lts, x)) == "'a"
  {
    assert (set y | y in lts && y > x) == {};
  }

  lemma ProperSubsetSmaller(a: set<int>, b: set<int>, x: int)
    requires a <= b && x in b && x !in a
    ensures |a| < |b|
  {
    var d := b - a;
    assert b == a + d;
    assert a * d == {};
    assert {x} <= d;
  }

  /** A larger lifetime comes earlier in the naming. */
  lemma RankOrder(lts: set<int>, x: int, y: int)
    requires x in lts && y in lts && x > y
    ensures Rank(lts, x) < Rank(lts, y)
  {
    var aboveX := set z | z in lts && z > x;
    var aboveY := set z | z in lts && z > y;
    ProperSubsetSmaller(aboveX, aboveY, x);
  }

  lemma RankBound(lts: set<int>, x: int)
    requires x in lts
    ensures Rank(lts, x) < |lts|
  {
    var aboveX := set z | z in lts && z > x;
    ProperSubsetSmaller(aboveX, lts, x);
  }

  /** Distinct lifetimes get distinct names, as long as there are fewer than
      `LabelLimit` of them. */
  lemma NamesDistinct(lts: set<int>, x: int, y: int)
    requires x in lts && y in lts && x != y
    requires |lts| <= LabelLimit
    ensures Label(Rank(lts, x)) != Label(Rank(lts, y))
  {
    RankBound(lts, x);
    RankBound(lts, y);
    if x > y { RankOrder(lts, x, y); } else { RankOrder(lts, y, x); }
    LabelInjective(Rank(lts, x), Rank(lts, y));
  }

  /** `serialize()` with its default argument `name_lts(this)`. */
  method SerializeDefault(c: Chain) returns (names: map<int, string>, r: Result<Option<string>, JsError>)
    ensures names.Keys == Lts(c)
    ensures forall x :: x in names ==> names[x] == Label(Rank(Lts(c), x))
    ensures r == Serialize(c, names)
  {
    names := NameLts([c]);
    assert AllLts([c]) == Lts(c) by {
      assert [c][..0] == [];
    }
    r := Serialize(c, names);
  }
}
