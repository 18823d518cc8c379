/** The reference-counted table through which Go code in WebAssembly holds JavaScript
    values, and the 64-bit words (IEEE 754 doubles) that stand for them.

    A handle is a quiet NaN (section 6.2.1 of IEEE 754-2008): type flag in the high word,
    table index in the low one. */
module HandleTable {
  import opened Sequences

  /** A 64-bit word of linear memory as two 32-bit halves. */
  datatype Word = Word(hi: nat, lo: nat)

  const NAN_HEAD: nat := 0x7FF8_0000

  predicate IsZero(w: Word) {
    w.hi % 0x8000_0000 == 0 && w.lo == 0
  }

  predicate IsNan(w: Word) {
    (w.hi / 0x10_0000) % 0x800 == 0x7FF && (w.hi % 0x10_0000 != 0 || w.lo != 0)
  }

  /** A JavaScript value.  `Number` is a number other than NaN and the two zeros. */
  datatype JsValue =
    | Undefined | NaN | Zero(negative: bool) | Number(w: Word)
    | Null | Boolean(b: bool) | BigInt(n: int)
    | Object(id: nat) | String(s: string) | Symbol(sym: nat) | Function(fun: nat)

  predicate WellFormed(v: JsValue) {
    v.Number? ==> !IsZero(v.w) && !IsNan(v.w)
  }

  function TypeFlag(v: JsValue): nat {
    match v
    case Object(_) => 1
    case String(_) => 2
    case Symbol(_) => 3
    case Function(_) => 4
    case _ => 0
  }

  /** A map keyed by values does not tell the zeros apart. */
  function MapKey(v: JsValue): JsValue {
    if v.Zero? then Zero(false) else v
  }

  /** Does storing `v` take a table entry? */
  predicate TakesHandle(v: JsValue) {
    !v.Number? && !v.NaN? && !v.Undefined?
  }

  function HandleWord(v: JsValue, id: nat): Word {
    Word(NAN_HEAD + TypeFlag(v), id)
  }

  datatype Count = Infinite | Finite(n: nat)

  function Up(c: Count): Count {
    if c.Finite? then Finite(c.n + 1) else c
  }

  function Down(c: Count): Count {
    if c.Finite? && c.n > 0 then Finite(c.n - 1) else c
  }

  /** The value table, the reference counts, the index of values, the free entries. */
  datatype Table = Table(values: seq<JsValue>, counts: seq<Count>, ids: map<JsValue, nat>, pool: seq<nat>)

  const PREDEFINED := [NaN, Zero(false), Null, Boolean(true), Boolean(false), Object(0), Object(1)]

  const INITIAL := Table(
    PREDEFINED,
    [Infinite, Infinite, Infinite, Infinite, Infinite, Infinite, Infinite],
    map[Zero(false) := 1, Null := 2, Boolean(true) := 3, Boolean(false) := 4, Object(0) := 5, Object(1) := 6],
    [])

  function Load(t: Table, w: Word): JsValue {
    if IsZero(w) then Undefined
    else if !IsNan(w) then Number(w)
    else if w.lo < |t.values| then t.values[w.lo]
    else Undefined
  }

  /** The entry for a value: its own, else the last freed one, else a new one. */
  function EntryFor(t: Table, v: JsValue): nat {
    if MapKey(v) in t.ids then t.ids[MapKey(v)]
    else if t.pool != [] then t.pool[|t.pool| - 1]
    else |t.values|
  }

  function SetOrAppend<T>(s: seq<T>, i: nat, x: T): seq<T>
    requires i <= |s|
  {
    if i < |s| then s[i := x] else s + [x]
  }

  /** The table with an entry for `v`, not yet counting the new reference. */
  function Interned(t: Table, v: JsValue): Table
    requires |t.values| == |t.counts| && EntryFor(t, v) <= |t.values|
  {
    var id := EntryFor(t, v);
    if MapKey(v) in t.ids then t
    else Table(SetOrAppend(t.values, id, v), SetOrAppend(t.counts, id, Finite(0)), t.ids[MapKey(v) := id],
               if t.pool == [] then t.pool else t.pool[..|t.pool| - 1])
  }

  /** The table after a value that takes a handle has been stored. */
  function Stored(t: Table, v: JsValue): Table
    requires |t.values| == |t.counts| && EntryFor(t, v) <= |t.values|
  {
    var id, t' := EntryFor(t, v), Interned(t, v);
    if id < |t'.counts| then t'.(counts := t'.counts[id := Up(t'.counts[id])]) else t'
  }

  function StoredWord(t: Table, v: JsValue): Word {
    match v
    case NaN => Word(NAN_HEAD, 0)
    case Number(w) => w
    case Undefined => Word(0, 0)
    case _ => HandleWord(v, EntryFor(t, v))
  }

  /** The table after one reference to entry `id` has been dropped. */
  function Finalized(t: Table, id: nat): Table
    requires id < |t.values| == |t.counts|
  {
    var t' := t.(counts := t.counts[id := Down(t.counts[id])]);
    if t'.counts[id] == Finite(0) then
      t'.(values := t.values[id := Null], ids := t.ids - {t.values[id]}, pool := t.pool + [id])
    else
      t'
  }

  // ---------------------------------------------------------------- the invariant

  /** A reference handed out and not yet dropped. */
  datatype Handle = Handle(id: nat, v: JsValue)

  /** Sizes agree and the predefined entries are in place, never counted. */
  ghost predicate Shape(t: Table) {
    && |t.values| == |t.counts| >= 7
    && t.values[..7] == PREDEFINED
    && (forall i :: 0 <= i < 7 ==> t.counts[i] == Infinite)
    && (forall i :: 1 <= i < 7 ==> t.values[i] in t.ids && t.ids[t.values[i]] == i)
  }

  /** The index is the inverse of the value table (hence injective). */
  ghost predicate Inverse(t: Table) {
    forall v :: v in t.ids ==> t.ids[v] < |t.values| && t.values[t.ids[v]] == v && TakesHandle(v) && MapKey(v) == v
  }

  /** Free entries are distinct, not predefined, not indexed and have no references. */
  ghost predicate PoolFree(t: Table, lent: multiset<Handle>)
    requires |t.values| == |t.counts|
  {
    && Distinct(t.pool)
    && (forall p :: p in t.pool ==> 7 <= p < |t.values| && t.counts[p] == Finite(0))
    && (forall v :: v in t.ids ==> t.ids[v] !in t.pool)
    && (forall h :: h in lent ==> h.id !in t.pool)
  }

  /** Every entry in use is indexed and counts its outstanding references. */
  ghost predicate Counted(t: Table, lent: multiset<Handle>)
    requires |t.values| == |t.counts|
  {
    forall i :: 7 <= i < |t.values| && i !in t.pool ==>
      && t.values[i] in t.ids && t.ids[t.values[i]] == i
      && t.counts[i] == Finite(lent[Handle(i, t.values[i])]) && t.counts[i].n > 0
  }

  /** Outstanding references are to entries holding their value. */
  ghost predicate Held(t: Table, lent: multiset<Handle>) {
    forall h :: h in lent ==> h.id < |t.values| && t.values[h.id] == h.v && TakesHandle(h.v)
  }

  ghost predicate Inv(t: Table, lent: multiset<Handle>) {
    Shape(t) && Inverse(t) && PoolFree(t, lent) && Counted(t, lent) && Held(t, lent)
  }

  lemma InitialInv()
    ensures Inv(INITIAL, multiset{})
  {
    InitialShape();
    InitialInverse();
  }

  lemma InitialShape()
    ensures Shape(INITIAL)
  {
    assert PREDEFINED[..7] == PREDEFINED;
  }

  lemma InitialInverse()
    ensures Inverse(INITIAL)
  {
  }

  lemma EntryInRange(t: Table, lent: multiset<Handle>, v: JsValue)
    requires Inv(t, lent)
    ensures EntryFor(t, v) <= |t.values|
    ensures EntryFor(t, v) == |t.values| ==> MapKey(v) !in t.ids && t.pool == []
  {
    if MapKey(v) !in t.ids && t.pool != [] {
      assert t.pool[|t.pool| - 1] in t.pool;
    }
  }

  lemma StoreKeepsInv(t: Table, lent: multiset<Handle>, v: JsValue)
    requires Inv(t, lent) && WellFormed(v) && TakesHandle(v) && EntryFor(t, v) <= |t.values|
    ensures Inv(Stored(t, v), lent + multiset{Handle(EntryFor(t, v), MapKey(v))})
  {
    var id := EntryFor(t, v);
    if MapKey(v) in t.ids {
      StoreKnown(t, lent, v);
    } else {
      // A zero is always known, so the value is its own key.
      assert t.values[1] == Zero(false) by { assert t.values[..7][1] == Zero(false); }
      assert MapKey(v) == v;
      StoreNew(t, lent, v);
    }
  }

  lemma StoreKnown(t: Table, lent: multiset<Handle>, v: JsValue)
    requires Inv(t, lent) && MapKey(v) in t.ids
    ensures EntryFor(t, v) <= |t.values|
    ensures Inv(Stored(t, v), lent + multiset{Handle(EntryFor(t, v), MapKey(v))})
  {
    var id := t.ids[MapKey(v)];
    var t', lent' := Stored(t, v), lent + multiset{Handle(id, MapKey(v))};
    assert id !in t.pool;
    forall i | 7 <= i < |t'.values| && i !in t'.pool
      ensures t'.counts[i] == Finite(lent'[Handle(i, t'.values[i])])
    {
      assert t.counts[i] == Finite(lent[Handle(i, t.values[i])]);
    }
  }

  lemma StoreNew(t: Table, lent: multiset<Handle>, v: JsValue)
    requires Inv(t, lent) && v !in t.ids && MapKey(v) == v && TakesHandle(v) && EntryFor(t, v) <= |t.values|
    ensures Inv(Stored(t, v), lent + multiset{Handle(EntryFor(t, v), v)})
  {
    var id := EntryFor(t, v);
    var t', lent' := Stored(t, v), lent + multiset{Handle(id, v)};
    NewEntry(t, lent, v);
    NewShape(t, t', id, v);
    NewInverse(t, t', id, v);
    NewPool(t, lent, t', id, v);
    NewCounted(t, lent, t', id, v);
  }

  /** `t'` is `t` with `v` in the fresh or recycled entry `id`, referenced once. */
  ghost predicate Adds(t: Table, t': Table, id: nat, v: JsValue) {
    && |t.values| == |t.counts| && |t'.values| == |t'.counts|
    && |t'.values| == (if id == |t.values| then id + 1 else |t.values|)
    && 7 <= id < |t'.values| && t'.values[id] == v && t'.counts[id] == Finite(1)
    && (forall i :: 0 <= i < |t.values| && i != id ==> t'.values[i] == t.values[i] && t'.counts[i] == t.counts[i])
    && v !in t.ids && t'.ids == t.ids[v := id]
    && (forall u :: u in t.ids ==> t.ids[u] != id)
    && (forall p :: p in t'.pool <==> p in t.pool && p != id)
    && (id in t.pool || id == |t.values|)
  }

  lemma NewEntry(t: Table, lent: multiset<Handle>, v: JsValue)
    requires Inv(t, lent) && v !in t.ids && MapKey(v) == v && EntryFor(t, v) <= |t.values|
    ensures Adds(t, Stored(t, v), EntryFor(t, v), v)
    ensures Distinct(Stored(t, v).pool)
  {
    var id := EntryFor(t, v);
    if t.pool != [] {
      assert id in t.pool;
    }
  }

  lemma NewShape(t: Table, t': Table, id: nat, v: JsValue)
    requires Shape(t) && Adds(t, t', id, v)
    ensures Shape(t')
  {
    assert t'.values[..7] == t.values[..7];
  }

  lemma NewInverse(t: Table, t': Table, id: nat, v: JsValue)
    requires Inverse(t) && Adds(t, t', id, v) && TakesHandle(v) && MapKey(v) == v
    ensures Inverse(t')
  {
  }

  lemma NewPool(t: Table, lent: multiset<Handle>, t': Table, id: nat, v: JsValue)
    requires |t.values| == |t.counts| && PoolFree(t, lent) && Adds(t, t', id, v) && Distinct(t'.pool)
    ensures PoolFree(t', lent + multiset{Handle(id, v)})
  {
  }

  lemma NewCounted(t: Table, lent: multiset<Handle>, t': Table, id: nat, v: JsValue)
    requires |t.values| == |t.counts| && Counted(t, lent) && PoolFree(t, lent) && Held(t, lent)
    requires Adds(t, t', id, v) && TakesHandle(v)
    ensures Counted(t', lent + multiset{Handle(id, v)})
    ensures Held(t', lent + multiset{Handle(id, v)})
  {
    var lent' := lent + multiset{Handle(id, v)};
    assert Handle(id, v) !in lent;
    forall i | 7 <= i < |t'.values| && i !in t'.pool
      ensures t'.values[i] in t'.ids && t'.ids[t'.values[i]] == i
      ensures t'.counts[i] == Finite(lent'[Handle(i, t'.values[i])]) && t'.counts[i].n > 0
    {
      if i != id {
        assert t.counts[i] == Finite(lent[Handle(i, t.values[i])]);
      }
    }
  }

  lemma FinalizeKeepsInv(t: Table, lent: multiset<Handle>, h: Handle)
    requires Inv(t, lent) && h in lent
    ensures h.id < |t.values|
    ensures Inv(Finalized(t, h.id), lent - multiset{h})
  {
    if h.id < 7 {
      DropPredefined(t, lent, h);
    } else {
      assert t.counts[h.id] == Finite(lent[h]);
      if lent[h] > 1 {
        DropOne(t, lent, h);
      } else {
        DropLastShape(t, h.id);
        DropLastPool(t, lent, h);
        DropLastCounted(t, lent, h);
      }
    }
  }

  lemma DropPredefined(t: Table, lent: multiset<Handle>, h: Handle)
    requires Inv(t, lent) && h in lent && h.id < 7
    ensures Finalized(t, h.id) == t && Inv(t, lent - multiset{h})
  {
  }

  lemma DropOne(t: Table, lent: multiset<Handle>, h: Handle)
    requires Inv(t, lent) && h in lent && 7 <= h.id < |t.values| && lent[h] > 1 && t.counts[h.id] == Finite(lent[h])
    ensures Inv(Finalized(t, h.id), lent - multiset{h})
  {
    var t', lent' := Finalized(t, h.id), lent - multiset{h};
    forall i | 7 <= i < |t'.values| && i !in t'.pool
      ensures t'.counts[i] == Finite(lent'[Handle(i, t'.values[i])])
    {
      assert t.counts[i] == Finite(lent[Handle(i, t.values[i])]);
    }
  }

  lemma DropLastShape(t: Table, id: nat)
    requires Shape(t) && Inverse(t) && 7 <= id < |t.values| && t.counts[id] == Finite(1)
    requires t.values[id] in t.ids && t.ids[t.values[id]] == id
    ensures Shape(Finalized(t, id)) && Inverse(Finalized(t, id))
  {
    var t' := Finalized(t, id);
    assert t'.values[..7] == t.values[..7];
    forall i | 1 <= i < 7 ensures t'.values[i] in t'.ids && t'.ids[t'.values[i]] == i {
      assert t.values[i] in t.ids && t.ids[t.values[i]] == i;
    }
  }

  lemma DropLastPool(t: Table, lent: multiset<Handle>, h: Handle)
    requires Inv(t, lent) && h in lent && 7 <= h.id < |t.values| && lent[h] == 1 && t.counts[h.id] == Finite(1)
    ensures PoolFree(Finalized(t, h.id), lent - multiset{h})
  {
    var t', lent' := Finalized(t, h.id), lent - multiset{h};
    forall g | g in lent' ensures g.id !in t'.pool {
      assert g in lent && g != h;
    }
    forall v | v in t'.ids ensures t'.ids[v] !in t'.pool {
      assert v in t.ids && v != t.values[h.id];
    }
  }

  lemma DropLastCounted(t: Table, lent: multiset<Handle>, h: Handle)
    requires Inv(t, lent) && h in lent && 7 <= h.id < |t.values| && lent[h] == 1 && t.counts[h.id] == Finite(1)
    ensures Counted(Finalized(t, h.id), lent - multiset{h}) && Held(Finalized(t, h.id), lent - multiset{h})
  {
    var t', lent' := Finalized(t, h.id), lent - multiset{h};
    forall g | g in lent' ensures g.id != h.id {
      assert g in lent && g != h;
    }
    forall i | 7 <= i < |t'.values| && i !in t'.pool
      ensures t'.values[i] in t'.ids && t'.ids[t'.values[i]] == i
      ensures t'.counts[i] == Finite(lent'[Handle(i, t'.values[i])]) && t'.counts[i].n > 0
    {
      assert i != h.id && i !in t.pool;
      assert t.counts[i] == Finite(lent[Handle(i, t.values[i])]);
    }
  }

  // ---------------------------------------------------------------- loading

  /** An outstanding reference loads the value it was made for. */
  lemma LoadOutstanding(t: Table, lent: multiset<Handle>, h: Handle)
    requires Inv(t, lent) && h in lent
    ensures Load(t, HandleWord(h.v, h.id)) == h.v
  {
    assert IsNan(HandleWord(h.v, h.id));
  }

  /** Storing a value and loading the word gives the value back, negative zero excepted:
      it comes back as zero. */
  lemma StoreThenLoad(t: Table, lent: multiset<Handle>, v: JsValue)
    requires Inv(t, lent) && WellFormed(v)
    ensures EntryFor(t, v) <= |t.values|
    ensures Load(if TakesHandle(v) then Stored(t, v) else t, StoredWord(t, v)) == MapKey(v)
    ensures MapKey(v) == v <==> v != Zero(true)
  {
    EntryInRange(t, lent, v);
    if TakesHandle(v) {
      StoreKeepsInv(t, lent, v);
      assert HandleWord(v, EntryFor(t, v)) == HandleWord(MapKey(v), EntryFor(t, v));
      LoadOutstanding(Stored(t, v), lent + multiset{Handle(EntryFor(t, v), MapKey(v))}, Handle(EntryFor(t, v), MapKey(v)));
    } else if v.NaN? {
      assert t.values[..7][0] == NaN;
    }
  }

  // ---------------------------------------------------------------- whole runs

  datatype Op = Store(v: JsValue) | Finalize(h: Handle)

  /** What the Go side may ask for: any value, and to drop a reference it holds. */
  ghost predicate Allowed(lent: multiset<Handle>, op: Op) {
    match op
    case Store(v) => WellFormed(v)
    case Finalize(h) => h in lent
  }

  ghost function After(t: Table, lent: multiset<Handle>, op: Op): (r: (Table, multiset<Handle>))
    requires Inv(t, lent) && Allowed(lent, op)
    ensures Inv(r.0, r.1)
  {
    match op
    case Store(v) =>
      if !TakesHandle(v) then (t, lent)
      else
        EntryInRange(t, lent, v);
        StoreKeepsInv(t, lent, v);
        (Stored(t, v), lent + multiset{Handle(EntryFor(t, v), MapKey(v))})
    case Finalize(h) =>
      FinalizeKeepsInv(t, lent, h);
      (Finalized(t, h.id), lent - multiset{h})
  }

  /** `states` are the tables and outstanding references along a run of `ops`. */
  ghost predicate IsRun(ops: seq<Op>, states: seq<(Table, multiset<Handle>)>) {
    && |states| == |ops| + 1 && states[0] == (INITIAL, multiset{})
    && forall i :: 0 <= i < |ops| ==> StepAt(ops, states, i)
  }

  ghost predicate StepAt(ops: seq<Op>, states: seq<(Table, multiset<Handle>)>, i: nat)
    requires i < |ops| && |states| == |ops| + 1
  {
    && Allowed(states[i].1, ops[i])
    && (Inv(states[i].0, states[i].1) ==> states[i + 1] == After(states[i].0, states[i].1, ops[i]))
  }

  /** Over every run of stores and of drops of outstanding references the table stays
      consistent; in particular every reference still out loads its value. */
  lemma {:induction false} EveryRunKeepsInv(ops: seq<Op>, states: seq<(Table, multiset<Handle>)>, i: nat)
    requires IsRun(ops, states) && i <= |ops|
    ensures Inv(states[i].0, states[i].1)
    ensures forall h :: h in states[i].1 ==> Load(states[i].0, HandleWord(h.v, h.id)) == h.v
  {
    if i == 0 {
      InitialInv();
    } else {
      EveryRunKeepsInv(ops, states, i - 1);
      assert StepAt(ops, states, i - 1);
    }
    forall h | h in states[i].1 ensures Load(states[i].0, HandleWord(h.v, h.id)) == h.v {
      LoadOutstanding(states[i].0, states[i].1, h);
    }
  }

  // ---------------------------------------------------------------- the object

  /** The high word tells Go what kind of value it holds; plain values have words of their
      own. */
  lemma WordTellsKind(t: Table, v: JsValue)
    ensures v.Object? ==> StoredWord(t, v).hi == 0x7FF8_0001
    ensures v.String? ==> StoredWord(t, v).hi == 0x7FF8_0002
    ensures v.Symbol? ==> StoredWord(t, v).hi == 0x7FF8_0003
    ensures v.Function? ==> StoredWord(t, v).hi == 0x7FF8_0004
    ensures v.Null? || v.Boolean? || v.BigInt? || v.Zero? ==> StoredWord(t, v).hi == 0x7FF8_0000
    ensures v.NaN? ==> StoredWord(t, v) == Word(0x7FF8_0000, 0)
    ensures v.Undefined? ==> StoredWord(t, v) == Word(0, 0)
    ensures v.Number? ==> StoredWord(t, v) == v.w
  {
  }

  /** The references Go takes for granted lead to the predefined values at all times. */
  lemma PredefinedAlwaysLoad(t: Table, lent: multiset<Handle>)
    requires Inv(t, lent)
    ensures Load(t, Word(0x7FF8_0000, 0)) == NaN && Load(t, Word(0x7FF8_0000, 1)) == Zero(false)
    ensures Load(t, Word(0x7FF8_0000, 2)) == Null
    ensures Load(t, Word(0x7FF8_0000, 3)) == Boolean(true) && Load(t, Word(0x7FF8_0000, 4)) == Boolean(false)
    ensures Load(t, Word(0x7FF8_0001, 5)) == Object(0) && Load(t, Word(0x7FF8_0001, 6)) == Object(1)
  {
    hide Inverse, PoolFree, Counted, Held;
    assert forall i :: 0 <= i < 7 ==> t.values[i] == t.values[..7][i];
  }

  /** While a value is in the table, storing it again gives the same word. */
  lemma SameValueSameWord(t: Table, v: JsValue)
    requires |t.values| == |t.counts| && EntryFor(t, v) <= |t.values|
    ensures StoredWord(Stored(t, v), v) == StoredWord(t, v)
  {
  }

  /** When the last reference to an entry is dropped, its value is let go, and the entry is
      the next to be used. */
  lemma LastFreedIsReused(t: Table, id: nat, v: JsValue)
    requires id < |t.values| == |t.counts| && t.counts[id] == Finite(1) && MapKey(v) !in t.ids
    ensures Load(Finalized(t, id), Word(0x7FF8_0000, id)) == Null
    ensures t.values[id] !in Finalized(t, id).ids && EntryFor(Finalized(t, id), v) == id
    ensures Finalized(t, id).counts[id] == Finite(0)
  {
  }

  class Go {
    var values: seq<JsValue>
    var goRefCounts: seq<Count>
    var ids: map<JsValue, nat>
    var idPool: seq<nat>
    ghost var lent: multiset<Handle>

    ghost function Contents(): Table
      reads this
    {
      Table(values, goRefCounts, ids, idPool)
    }

    ghost predicate Valid()
      reads this
    {
      Inv(Contents(), lent)
    }

    constructor ()
      ensures Valid() && Contents() == INITIAL && lent == multiset{}
    {
      values, goRefCounts := INITIAL.values, INITIAL.counts;
      ids, idPool := INITIAL.ids, INITIAL.pool;
      lent := multiset{};
      new;
      InitialInv();
    }

    /** The word of an outstanding reference loads its value; the word of a value that takes
        no entry loads that value. */
    method LoadValue(w: Word) returns (v: JsValue)
      ensures v == Load(Contents(), w)
      ensures Valid() ==> forall h :: h in lent && w == HandleWord(h.v, h.id) ==> v == h.v
      ensures Valid() ==> forall u :: WellFormed(u) && !TakesHandle(u) && w == StoredWord(Contents(), u) ==> v == u
    {
      ghost var t := Contents();
      if Valid() {
        forall h | h in lent && w == HandleWord(h.v, h.id) ensures Load(t, w) == h.v {
          LoadOutstanding(t, lent, h);
        }
        forall u | WellFormed(u) && !TakesHandle(u) && w == StoredWord(t, u) ensures Load(t, w) == u {
          StoreThenLoad(t, lent, u);
        }
      }
      if IsZero(w) {
        return Undefined;
      }
      if !IsNan(w) {
        return Number(w);
      }
      v := if w.lo < |values| then values[w.lo] else Undefined;
    }

    method StoreValue(v: JsValue) returns (w: Word)
      requires Valid() && WellFormed(v)
      modifies this
      ensures Valid() && w == StoredWord(old(Contents()), v)
      ensures !TakesHandle(v) ==> Contents() == old(Contents()) && lent == old(lent)
      ensures TakesHandle(v) ==>
                && EntryFor(old(Contents()), v) <= |old(values)|
                && Contents() == Stored(old(Contents()), v)
                && lent == old(lent) + multiset{Handle(EntryFor(old(Contents()), v), MapKey(v))}
    {
      match v {
        case NaN => return Word(NAN_HEAD, 0);
        case Number(word) => return word;
        case Undefined => return Word(0, 0);
        case _ => w := StoreHandle(v);
      }
    }

    /** A value that takes a table entry: one reference more to it. */
    method StoreHandle(v: JsValue) returns (w: Word)
      requires Valid() && WellFormed(v) && TakesHandle(v)
      modifies this
      ensures Valid() && w == HandleWord(v, EntryFor(old(Contents()), v))
      ensures EntryFor(old(Contents()), v) <= |old(values)|
      ensures Contents() == Stored(old(Contents()), v)
      ensures lent == old(lent) + multiset{Handle(EntryFor(old(Contents()), v), MapKey(v))}
    {
      hide Inverse, PoolFree, Counted, Held;
      EntryInRange(Contents(), lent, v);
      StoreKeepsInv(Contents(), lent, v);
      ghost var t := Contents();
      var id := Intern(v);
      goRefCounts := goRefCounts[id := Up(goRefCounts[id])];
      assert Contents() == Stored(t, v);
      lent := lent + multiset{Handle(id, MapKey(v))};
      w := Word(NAN_HEAD + TypeFlag(v), id);
    }

    /** Find or make the entry of a value. */
    method Intern(v: JsValue) returns (id: nat)
      requires Valid() && EntryFor(Contents(), v) <= |values| == |goRefCounts|
      modifies `values, `goRefCounts, `ids, `idPool
      ensures id == EntryFor(old(Contents()), v) && Contents() == Interned(old(Contents()), v)
      ensures id < |values| == |goRefCounts|
    {
      if MapKey(v) in ids {
        id := ids[MapKey(v)];
      } else {
        if idPool != [] {
          id := idPool[|idPool| - 1];
          idPool := idPool[..|idPool| - 1];
        } else {
          id := |values|;
        }
        values := SetOrAppend(values, id, v);
        goRefCounts := SetOrAppend(goRefCounts, id, Finite(0));
        ids := ids[MapKey(v) := id];
      }
    }

    method FinalizeRef(id: nat, ghost h: Handle)
      requires Valid() && h in lent && h.id == id
      modifies this
      ensures id < |old(values)| == |old(goRefCounts)|
      ensures Valid() && Contents() == Finalized(old(Contents()), id) && lent == old(lent) - multiset{h}
    {
      ghost var t := Contents();
      FinalizeKeepsInv(t, lent, h);
      goRefCounts := goRefCounts[id := Down(goRefCounts[id])];
      if goRefCounts[id] == Finite(0) {
        var v := values[id];
        values := values[id := Null];
        ids := ids - {v};
        idPool := idPool + [id];
      }
      assert Contents() == Finalized(t, id);
      lent := lent - multiset{h};
    }
  }
}
