/** Passing arguments and environment to a program in linear memory: how start-up lays
    them out, how the program reads them back, and how 64-bit integers cross over. */
module ArgLayout {
  import opened Sequences
  import opened Wrappers

  const ARGS_START: nat := 4096
  const MIN_DATA_ADDR: nat := 4096 + 8192
  const WORD := 0x1_0000_0000

  type Byte = x: int | 0 <= x < 256

  // ---------------------------------------------------------------- words

  /** Four bytes, least significant first; of a larger number the low 32 bits. */
  function WordBytes(w: int): (b: seq<Byte>)
    ensures |b| == 4
  {
    [w % 256, w / 256 % 256, w / 65536 % 256, w / 16777216 % 256]
  }

  function ReadWord(m: seq<Byte>, p: nat): (w: nat)
    requires p + 4 <= |m|
    ensures w < WORD
  {
    var b0: int, b1: int, b2: int, b3: int := m[p], m[p + 1], m[p + 2], m[p + 3];
    b0 + 256 * b1 + 65536 * b2 + 16777216 * b3
  }

  lemma WordRoundTrip(m: seq<Byte>, p: nat, w: int)
    requires Placed(m, p, WordBytes(w))
    ensures ReadWord(m, p) == w % WORD
  {
    PlacedAt(m, p, WordBytes(w));
    var q := w / 256;
    assert w == 256 * q + w % 256;
    assert w / 65536 == q / 256;
    assert w / 16777216 == q / 256 / 256;
  }

  /** The least significant byte comes first. */
  lemma LittleEndian(m: seq<Byte>, p: nat)
    requires Placed(m, p, [1, 2, 3, 4])
    ensures WordBytes(0x0403_0201) == [1, 2, 3, 4] && ReadWord(m, p) == 0x0403_0201
  {
    PlacedAt(m, p, [1, 2, 3, 4]);
  }

  // ---------------------------------------------------------------- 64-bit integers

  function Int64Bytes(v: int): seq<Byte> {
    WordBytes(v) + WordBytes(v / WORD)
  }

  function Signed(w: nat): int {
    if w < WORD / 2 then w else w - WORD
  }

  function GetInt64(m: seq<Byte>, p: nat): int
    requires p + 8 <= |m|
  {
    ReadWord(m, p) + Signed(ReadWord(m, p + 4)) * WORD
  }

  /** A stored integer is loaded unchanged exactly when it has 64 bits, sign included:
      every safe integer is among them. */
  lemma Int64RoundTripExactly(m: seq<Byte>, p: nat, v: int)
    requires Placed(m, p, Int64Bytes(v))
    ensures GetInt64(m, p) == v <==> -0x8000_0000_0000_0000 <= v < 0x8000_0000_0000_0000
  {
    PlacedParts(m, p, WordBytes(v), WordBytes(v / WORD));
    WordRoundTrip(m, p, v);
    WordRoundTrip(m, p + 4, v / WORD);
    HalvesExactly(v);
  }

  lemma HalvesExactly(v: int)
    ensures v % WORD + Signed(v / WORD % WORD) * WORD == v <==>
            -0x8000_0000_0000_0000 <= v < 0x8000_0000_0000_0000
  {
    var high := v / WORD;
    assert v == high * WORD + v % WORD;
    assert Signed(high % WORD) == high <==> -WORD / 2 <= high < WORD / 2;
  }

  // ---------------------------------------------------------------- bytes in memory

  ghost predicate Placed(m: seq<Byte>, p: nat, bytes: seq<Byte>) {
    p + |bytes| <= |m| && m[p..p + |bytes|] == bytes
  }

  lemma PlacedAt(m: seq<Byte>, p: nat, bytes: seq<Byte>)
    requires Placed(m, p, bytes)
    ensures forall k :: p <= k < p + |bytes| ==> m[k] == bytes[k - p]
  {
    forall k | p <= k < p + |bytes| ensures m[k] == bytes[k - p] {
      assert m[p..p + |bytes|][k - p] == m[k];
    }
  }

  lemma PlacedParts(m: seq<Byte>, p: nat, a: seq<Byte>, b: seq<Byte>)
    requires Placed(m, p, a + b)
    ensures Placed(m, p, a) && Placed(m, p + |a|, b)
  {
    PlacedAt(m, p, a + b);
  }

  // ---------------------------------------------------------------- writing

  /** One write to memory. */
  datatype Write = Write(at: nat, bytes: seq<Byte>)
  {
    function End(): nat {
      at + |bytes|
    }
  }

  predicate Within(memory: nat, w: Write) {
    w.End() <= memory
  }

  function Overwrite(m: seq<Byte>, w: Write): (n: seq<Byte>)
    requires Within(|m|, w)
    ensures |n| == |m|
  {
    m[..w.at] + w.bytes + m[w.End()..]
  }

  lemma OverwriteAt(m: seq<Byte>, w: Write)
    requires Within(|m|, w)
    ensures forall x :: 0 <= x < |m| ==> Overwrite(m, w)[x] == if w.at <= x < w.End() then w.bytes[x - w.at] else m[x]
  {
  }

  /** All writes are within the memory; the first that is not throws. */
  predicate AllWithin(memory: nat, ws: seq<Write>) {
    ws != [] ==> Within(memory, ws[|ws| - 1]) && AllWithin(memory, ws[..|ws| - 1])
  }

  /** The memory after the writes, performed in turn up to the first that throws. */
  function Perform(m: seq<Byte>, ws: seq<Write>): (n: seq<Byte>)
    ensures |n| == |m|
  {
    if ws == [] then m
    else
      var k := |ws| - 1;
      var before := Perform(m, ws[..k]);
      if AllWithin(|m|, ws) then Overwrite(before, ws[k]) else before
  }

  /** Where the last write that is performed ends. */
  function Extent(memory: nat, ws: seq<Write>): nat {
    if ws == [] then 0
    else
      var k := |ws| - 1;
      if AllWithin(memory, ws) then ws[k].End() else Extent(memory, ws[..k])
  }

  /** Each write begins where those before it have ended, and none is empty. */
  ghost predicate Ascending(ws: seq<Write>) {
    && (forall i :: 0 <= i < |ws| ==> ws[i].bytes != [])
    && (forall i, j :: 0 <= i < j < |ws| ==> ws[i].End() <= ws[j].at)
  }

  lemma {:induction false} PerformOn(m: seq<Byte>, a: seq<Write>, b: seq<Write>)
    requires AllWithin(|m|, a)
    ensures Perform(m, a + b) == Perform(Perform(m, a), b)
  {
    if b == [] {
      assert a + b == a;
    } else {
      var k := |b| - 1;
      PerformOn(m, a, b[..k]);
      LastOf(a, b);
      WithinOn(|m|, a, b);
    }
  }

  lemma LastOf(a: seq<Write>, b: seq<Write>)
    requires b != []
    ensures (a + b)[..|a + b| - 1] == a + b[..|b| - 1] && (a + b)[|a + b| - 1] == b[|b| - 1]
  {
  }

  lemma {:induction false} WithinOn(memory: nat, a: seq<Write>, b: seq<Write>)
    ensures AllWithin(memory, a + b) <==> AllWithin(memory, a) && AllWithin(memory, b)
  {
    if b == [] {
      assert a + b == a;
    } else {
      WithinOn(memory, a, b[..|b| - 1]);
      LastOf(a, b);
    }
  }

  /** Going upwards, all are within the memory if the last is. */
  lemma {:induction false} WithinIfLastIs(memory: nat, ws: seq<Write>)
    requires Ascending(ws) && ws != []
    ensures AllWithin(memory, ws) <==> Within(memory, ws[|ws| - 1])
  {
    var k := |ws| - 1;
    if k > 0 {
      assert ws[..k][k - 1].End() <= ws[k].at;
      WithinIfLastIs(memory, ws[..k]);
    }
  }

  /** Once a write has thrown, nothing more happens. */
  lemma {:induction false} PerformStops(m: seq<Byte>, a: seq<Write>, b: seq<Write>)
    requires !AllWithin(|m|, a)
    ensures Perform(m, a + b) == Perform(m, a)
  {
    if b == [] {
      assert a + b == a;
    } else {
      PerformStops(m, a, b[..|b| - 1]);
      LastOf(a, b);
      WithinOn(|m|, a, b);
    }
  }

  /** Nothing below the first write or from the end of the last performed one on changes. */
  lemma {:induction false} NothingElseChanges(m: seq<Byte>, ws: seq<Write>, x: nat)
    requires Ascending(ws) && x < |m|
    requires x >= Extent(|m|, ws) || forall i :: 0 <= i < |ws| ==> x < ws[i].at
    ensures Perform(m, ws)[x] == m[x]
  {
    if ws != [] {
      var k := |ws| - 1;
      if AllWithin(|m|, ws) {
        OverwriteAt(Perform(m, ws[..k]), ws[k]);
        if k > 0 {
          assert ws[..k][k - 1].End() <= ws[k].at;
        }
      }
      NothingElseChanges(m, ws[..k], x);
    }
  }

  /** What was written stays: no later write touches it. */
  lemma {:induction false} WritesStay(m: seq<Byte>, ws: seq<Write>, i: nat)
    requires Ascending(ws) && AllWithin(|m|, ws) && i < |ws|
    ensures Placed(Perform(m, ws), ws[i].at, ws[i].bytes)
  {
    var k := |ws| - 1;
    if i < k {
      WritesStay(m, ws[..k], i);
      assert ws[i].End() <= ws[k].at;
      StaysBelow(Perform(m, ws[..k]), ws[k], ws[i]);
    } else {
      JustWritten(Perform(m, ws[..k]), ws[k]);
    }
  }

  lemma JustWritten(m: seq<Byte>, w: Write)
    requires Within(|m|, w)
    ensures Placed(Overwrite(m, w), w.at, w.bytes)
  {
    OverwriteAt(m, w);
    assert Overwrite(m, w)[w.at..w.End()] == w.bytes;
  }

  lemma StaysBelow(m: seq<Byte>, w: Write, earlier: Write)
    requires Within(|m|, w) && Placed(m, earlier.at, earlier.bytes) && earlier.End() <= w.at
    ensures Placed(Overwrite(m, w), earlier.at, earlier.bytes)
  {
    OverwriteAt(m, w);
    PlacedAt(m, earlier.at, earlier.bytes);
    assert Overwrite(m, w)[earlier.at..earlier.End()] == earlier.bytes;
  }

  ghost predicate LeavesAlone(m: seq<Byte>, n: seq<Byte>, from: nat) {
    |m| == |n| && forall x :: from <= x < |m| ==> n[x] == m[x]
  }

  /** Whatever the memory holds, it is left alone from an address on: exactly when the last
      write that is performed ends there or below. */
  lemma LeavesAloneExactly(memory: nat, ws: seq<Write>, from: nat)
    requires Ascending(ws)
    ensures Extent(memory, ws) <= from <==>
            forall m: seq<Byte> :: |m| == memory ==> LeavesAlone(m, Perform(m, ws), from)
  {
    if Extent(memory, ws) <= from {
      forall m: seq<Byte> | |m| == memory ensures LeavesAlone(m, Perform(m, ws), from) {
        forall x | from <= x < |m| ensures Perform(m, ws)[x] == m[x] {
          NothingElseChanges(m, ws, x);
        }
      }
    } else {
      var m := ChangedAtExtent(memory, ws);
      assert !LeavesAlone(m, Perform(m, ws), from);
    }
  }

  /** Some memory is changed just below the end of the last performed write. */
  lemma {:induction false} ChangedAtExtent(memory: nat, ws: seq<Write>) returns (m: seq<Byte>)
    requires Extent(memory, ws) > 0 && forall i :: 0 <= i < |ws| ==> ws[i].bytes != []
    ensures |m| == memory && Extent(memory, ws) <= memory
    ensures Perform(m, ws)[Extent(memory, ws) - 1] != m[Extent(memory, ws) - 1]
    decreases |ws|
  {
    var k := |ws| - 1;
    if AllWithin(memory, ws) {
      var w := ws[k];
      var last: int := w.bytes[|w.bytes| - 1];
      m := seq(memory, _ => (last + 1) % 256);
      OverwriteAt(Perform(m, ws[..k]), w);
    } else {
      m := ChangedAtExtent(memory, ws[..k]);
    }
  }

  // ---------------------------------------------------------------- where strings go

  function Align(n: nat): (r: nat)
    ensures n <= r < n + 8 && r % 8 == 0
  {
    if n % 8 != 0 then n + (8 - n % 8) else n
  }

  /** Where the next string goes after one at `p`, which has a final zero. */
  function Next(p: nat, str: seq<Byte>): (q: nat)
    ensures p + |str| + 1 <= q && q % 8 == 0
  {
    Align(p + |str| + 1)
  }

  /** The next string goes to the first multiple of eight behind the final zero. */
  lemma NextIsLeast(p: nat, str: seq<Byte>, q: nat)
    requires p + |str| + 1 <= q && q % 8 == 0
    ensures Next(p, str) <= q && Next(p, str) % 8 == 0 && p + |str| < Next(p, str)
  {
  }

  /** The offset after placing the strings one by one. */
  function End(start: nat, strs: seq<seq<Byte>>): nat {
    if strs == [] then start
    else
      var n := |strs| - 1;
      Next(End(start, strs[..n]), strs[n])
  }

  function Ptr(start: nat, strs: seq<seq<Byte>>, k: nat): nat
    requires k <= |strs|
  {
    End(start, strs[..k])
  }

  lemma PtrStep(start: nat, strs: seq<seq<Byte>>, k: nat)
    requires k < |strs|
    ensures Ptr(start, strs, k + 1) == Next(Ptr(start, strs, k), strs[k])
  {
    assert strs[..k + 1][..k] == strs[..k];
  }

  /** Each string ends where the next one may begin, at a multiple of eight. */
  lemma {:induction false} StringsDoNotOverlap(start: nat, strs: seq<seq<Byte>>, j: nat, k: nat)
    requires j < k <= |strs| && start % 8 == 0
    ensures start <= Ptr(start, strs, j) && Ptr(start, strs, j) + |strs[j]| + 1 <= Ptr(start, strs, k)
    ensures Ptr(start, strs, k) % 8 == 0
    decreases k
  {
    PtrStep(start, strs, k - 1);
    if j < k - 1 {
      StringsDoNotOverlap(start, strs, j, k - 1);
    } else if 0 < j {
      StringsDoNotOverlap(start, strs, j - 1, j);
    }
  }

  function Terminated(str: seq<Byte>): seq<Byte> {
    str + [0]
  }

  function Pointers(start: nat, strs: seq<seq<Byte>>): (ptrs: seq<nat>)
    ensures |ptrs| == |strs| && forall k :: 0 <= k < |strs| ==> ptrs[k] == Ptr(start, strs, k)
  {
    seq(|strs|, k requires 0 <= k < |strs| => Ptr(start, strs, k))
  }

  function Table(args: seq<seq<Byte>>, env: seq<seq<Byte>>): seq<nat> {
    Pointers(ARGS_START, args) + [0] + Pointers(End(ARGS_START, args), env) + [0]
  }

  /** Where the table stands: after all strings. */
  function Argv(args: seq<seq<Byte>>, env: seq<seq<Byte>>): nat {
    End(End(ARGS_START, args), env)
  }

  // ---------------------------------------------------------------- what start-up writes

  function StringWrites(start: nat, strs: seq<seq<Byte>>): (ws: seq<Write>)
    ensures |ws| == |strs|
    ensures forall k :: 0 <= k < |strs| ==> ws[k] == Write(Ptr(start, strs, k), Terminated(strs[k]))
  {
    seq(|strs|, k requires 0 <= k < |strs| => Write(Ptr(start, strs, k), Terminated(strs[k])))
  }

  /** The table: a word for every pointer, and a zero word after it. */
  function TableWrites(argv: nat, table: seq<nat>): (ws: seq<Write>)
    ensures |ws| == 2 * |table|
    ensures forall i :: 0 <= i < |table| ==> EntryAt(argv, table, ws, i)
  {
    var ws := seq(2 * |table|, j requires 0 <= j < 2 * |table| => TableWrite(argv, table, j));
    WritesAreEntries(argv, table, ws);
    ws
  }

  function TableWrite(argv: nat, table: seq<nat>, j: nat): Write
    requires j < 2 * |table|
  {
    Write(argv + 4 * j, WordBytes(if j % 2 == 0 then table[j / 2] else 0))
  }

  lemma WritesAreEntries(argv: nat, table: seq<nat>, ws: seq<Write>)
    requires |ws| == 2 * |table| && forall j :: 0 <= j < |ws| ==> ws[j] == TableWrite(argv, table, j)
    ensures forall i :: 0 <= i < |table| ==> EntryAt(argv, table, ws, i)
  {
    hide WordBytes;
    forall i | 0 <= i < |table| ensures EntryAt(argv, table, ws, i) {
      assert 2 * i / 2 == i && ws[2 * i] == TableWrite(argv, table, 2 * i);
      assert ws[2 * i + 1] == TableWrite(argv, table, 2 * i + 1);
    }
  }

  predicate EntryAt(argv: nat, table: seq<nat>, ws: seq<Write>, i: nat)
    requires i < |table| && |ws| == 2 * |table|
  {
    && ws[2 * i] == Write(argv + 8 * i, WordBytes(table[i]))
    && ws[2 * i + 1] == Write(argv + 8 * i + 4, WordBytes(0))
  }

  function AllWrites(args: seq<seq<Byte>>, env: seq<seq<Byte>>): seq<Write> {
    StringWrites(ARGS_START, args) + StringWrites(End(ARGS_START, args), env) + TableWrites(Argv(args, env), Table(args, env))
  }

  ghost predicate LaidOut(m: seq<Byte>, args: seq<seq<Byte>>, env: seq<seq<Byte>>) {
    forall i :: 0 <= i < |AllWrites(args, env)| ==> WrittenAt(m, AllWrites(args, env)[i])
  }

  ghost predicate WrittenAt(m: seq<Byte>, w: Write) {
    Placed(m, w.at, w.bytes)
  }

  /** Where everything ends, if all of it can be written. */
  function TotalEnd(args: seq<seq<Byte>>, env: seq<seq<Byte>>): nat {
    Argv(args, env) + 8 * (|args| + |env| + 2)
  }

  predicate Fits(memory: nat, args: seq<seq<Byte>>, env: seq<seq<Byte>>) {
    TotalEnd(args, env) < MIN_DATA_ADDR && TotalEnd(args, env) <= memory
  }

  /** How far start-up writes into a memory of that size. */
  function Reach(memory: nat, args: seq<seq<Byte>>, env: seq<seq<Byte>>): nat {
    Extent(memory, AllWrites(args, env))
  }

  lemma {:induction false} StartIsLowest(start: nat, strs: seq<seq<Byte>>)
    ensures start <= End(start, strs)
  {
    if strs != [] {
      StartIsLowest(start, strs[..|strs| - 1]);
    }
  }

  lemma Aligned(start: nat, strs: seq<seq<Byte>>)
    requires start % 8 == 0
    ensures End(start, strs) % 8 == 0
  {
  }

  lemma {:induction false} PtrsGrow(start: nat, strs: seq<seq<Byte>>, k: nat)
    requires k <= |strs|
    ensures Ptr(start, strs, k) <= End(start, strs)
    decreases |strs| - k
  {
    if k < |strs| {
      PtrStep(start, strs, k);
      PtrsGrow(start, strs, k + 1);
    } else {
      assert strs[..k] == strs;
    }
  }

  // ---------------------------------------------------------------- the order of the writes

  ghost predicate Between(ws: seq<Write>, lo: nat, hi: nat) {
    Ascending(ws) && forall i :: 0 <= i < |ws| ==> lo <= ws[i].at && ws[i].End() <= hi
  }

  lemma BetweenOn(a: seq<Write>, b: seq<Write>, lo: nat, mid: nat, hi: nat)
    requires Between(a, lo, mid) && Between(b, mid, hi) && lo <= mid <= hi
    ensures Between(a + b, lo, hi)
  {
    var ws := a + b;
    forall i | 0 <= i < |ws| ensures lo <= ws[i].at && ws[i].End() <= hi && ws[i].bytes != [] {
      assert ws[i] == if i < |a| then a[i] else b[i - |a|];
    }
    forall i, j | 0 <= i < j < |ws| ensures ws[i].End() <= ws[j].at {
      assert ws[i] == if i < |a| then a[i] else b[i - |a|];
      assert ws[j] == if j < |a| then a[j] else b[j - |a|];
    }
  }

  lemma StringsBetween(start: nat, strs: seq<seq<Byte>>)
    requires start % 8 == 0
    ensures Between(StringWrites(start, strs), start, End(start, strs))
  {
    var ws := StringWrites(start, strs);
    assert strs[..|strs|] == strs;
    forall i, j | 0 <= i < j <= |strs| ensures start <= ws[i].at && ws[i].End() <= Ptr(start, strs, j) {
      StringsDoNotOverlap(start, strs, i, j);
    }
  }

  lemma TableBetween(argv: nat, table: seq<nat>)
    ensures Between(TableWrites(argv, table), argv, argv + 8 * |table|)
  {
    var ws := TableWrites(argv, table);
    forall i | 0 <= i < |ws| ensures ws[i].at == argv + 4 * i && |ws[i].bytes| == 4 {
      assert EntryAt(argv, table, ws, i / 2);
    }
  }

  lemma TableSize(args: seq<seq<Byte>>, env: seq<seq<Byte>>)
    ensures |Table(args, env)| == |args| + |env| + 2
  {
  }

  /** Start-up writes upwards from 4096, everything next to or above what came before. */
  lemma WritesAscend(args: seq<seq<Byte>>, env: seq<seq<Byte>>)
    ensures Between(AllWrites(args, env), ARGS_START, TotalEnd(args, env))
  {
    var first, argv := End(ARGS_START, args), Argv(args, env);
    StartIsLowest(ARGS_START, args);
    StartIsLowest(first, env);
    Aligned(ARGS_START, args);
    TableSize(args, env);
    StringsBetween(ARGS_START, args);
    StringsBetween(first, env);
    TableBetween(argv, Table(args, env));
    BetweenOn(StringWrites(ARGS_START, args), StringWrites(first, env), ARGS_START, first, argv);
    BetweenOn(StringWrites(ARGS_START, args) + StringWrites(first, env), TableWrites(argv, Table(args, env)),
              ARGS_START, argv, TotalEnd(args, env));
  }

  /** All writes are within the memory exactly when the end of the table is. */
  lemma AllWithinExactly(memory: nat, args: seq<seq<Byte>>, env: seq<seq<Byte>>)
    ensures AllWithin(memory, AllWrites(args, env)) <==> TotalEnd(args, env) <= memory
    ensures TotalEnd(args, env) <= memory ==> Reach(memory, args, env) == TotalEnd(args, env)
  {
    var ws := AllWrites(args, env);
    WritesAscend(args, env);
    LastWrite(args, env);
    WithinIfLastIs(memory, ws);
  }

  lemma LastWrite(args: seq<seq<Byte>>, env: seq<seq<Byte>>)
    ensures AllWrites(args, env) != []
    ensures AllWrites(args, env)[|AllWrites(args, env)| - 1].End() == TotalEnd(args, env)
  {
    var table, argv := Table(args, env), Argv(args, env);
    TableSize(args, env);
    var ws := TableWrites(argv, table);
    assert EntryAt(argv, table, ws, |table| - 1);
    assert AllWrites(args, env)[|AllWrites(args, env)| - 1] == ws[|ws| - 1];
  }

  // ---------------------------------------------------------------- the program's data

  /** What lies from 12288 on, the program's data, is left alone whatever the memory holds
      exactly when start-up reaches no further. */
  lemma DataIsLeftAloneExactly(memory: nat, args: seq<seq<Byte>>, env: seq<seq<Byte>>)
    ensures Reach(memory, args, env) <= MIN_DATA_ADDR <==>
            forall m: seq<Byte> :: |m| == memory ==> LeavesAlone(m, Perform(m, AllWrites(args, env)), MIN_DATA_ADDR)
  {
    WritesAscend(args, env);
    LeavesAloneExactly(memory, AllWrites(args, env), MIN_DATA_ADDR);
  }

  /** A start that is not refused never reaches the data. */
  lemma AcceptedStartIsHarmless(memory: nat, args: seq<seq<Byte>>, env: seq<seq<Byte>>)
    requires Fits(memory, args, env)
    ensures Reach(memory, args, env) < MIN_DATA_ADDR
  {
    AllWithinExactly(memory, args, env);
  }

  /** A start that is refused can: a single argument of more than 8192 bytes is written
      into the data before its length is looked at. */
  lemma RefusedStartOverwritesData(m: seq<Byte>, arg: seq<Byte>)
    requires |arg| > 8192 && ARGS_START + |arg| + 1 <= |m|
    ensures !Fits(|m|, [arg], [])
    ensures Perform(m, AllWrites([arg], []))[MIN_DATA_ADDR] == arg[8192]
  {
    var args, ws := [arg], AllWrites([arg], []);
    assert args[..0] == [] && args[..1] == args;
    assert ws[0] == StringWrites(ARGS_START, args)[0] == Write(ARGS_START, Terminated(arg));
    WritesAscend(args, []);
    StartIsLowest(End(ARGS_START, args), []);
    assert End(ARGS_START, args) == Next(ARGS_START, arg);
    FirstWriteStays(m, ws);
    PlacedAt(Perform(m, ws), ARGS_START, Terminated(arg));
  }

  /** The first write, if it is performed, stays also when a later one throws. */
  lemma {:induction false} FirstWriteStays(m: seq<Byte>, ws: seq<Write>)
    requires Ascending(ws) && ws != [] && Within(|m|, ws[0])
    ensures Placed(Perform(m, ws), ws[0].at, ws[0].bytes)
  {
    if |ws| == 1 {
      assert ws[..0] == [];
      WritesStay(m, ws, 0);
    } else if AllWithin(|m|, ws) {
      WritesStay(m, ws, 0);
    } else {
      FirstWriteStays(m, ws[..|ws| - 1]);
    }
  }

  // ---------------------------------------------------------------- start-up

  /** `now` is the memory after the first `k` writes, none of which has thrown. */
  ghost predicate DoneUpTo(m: seq<Byte>, ws: seq<Write>, k: nat, now: seq<Byte>)
    requires k <= |ws|
  {
    AllWithin(|m|, ws[..k]) && now == Perform(m, ws[..k])
  }

  lemma OneMoreWrite(m: seq<Byte>, ws: seq<Write>, k: nat, now: seq<Byte>)
    requires k < |ws| && DoneUpTo(m, ws, k, now) && Within(|m|, ws[k])
    ensures |now| == |m| && DoneUpTo(m, ws, k + 1, Overwrite(now, ws[k]))
  {
    var done := ws[..k + 1];
    assert done[..k] == ws[..k] && done[k] == ws[k];
  }

  lemma WriteThrows(m: seq<Byte>, ws: seq<Write>, k: nat, now: seq<Byte>)
    requires k < |ws| && DoneUpTo(m, ws, k, now) && !Within(|m|, ws[k])
    ensures !AllWithin(|m|, ws) && now == Perform(m, ws)
  {
    var first, rest := ws[..k], ws[k..];
    assert ws == first + rest;
    ThrowsAtOnce(Perform(m, first), rest);
    PerformOn(m, first, rest);
    WithinOn(|m|, first, rest);
  }

  lemma {:induction false} ThrowsAtOnce(m: seq<Byte>, ws: seq<Write>)
    requires ws != [] && !Within(|m|, ws[0])
    ensures !AllWithin(|m|, ws) && Perform(m, ws) == m
  {
    if |ws| > 1 {
      ThrowsAtOnce(m, ws[..|ws| - 1]);
    } else {
      assert ws[..0] == [];
    }
  }

  lemma AllDone(m: seq<Byte>, ws: seq<Write>, now: seq<Byte>)
    requires DoneUpTo(m, ws, |ws|, now)
    ensures AllWithin(|m|, ws) && now == Perform(m, ws)
  {
    assert ws[..|ws|] == ws;
  }

  /** `None` stands for an exception: a write beyond the memory, or too much to pass. */
  class Startup {
    const mem: array<Byte>
    var offset: nat

    constructor (mem: array<Byte>)
      ensures this.mem == mem && offset == ARGS_START
    {
      this.mem := mem;
      offset := ARGS_START;
    }

    method StrPtr(str: seq<Byte>) returns (ptr: Option<nat>)
      modifies this`offset, mem
      ensures var w := Write(old(offset), Terminated(str));
              && (ptr.Some? <==> Within(mem.Length, w))
              && (ptr.Some? ==> ptr.value == old(offset) && offset == Next(old(offset), str))
              && mem[..] == if ptr.Some? then Overwrite(old(mem[..]), w) else old(mem[..])
    {
      var at := offset;
      var bytes := Terminated(str);
      if at + |bytes| > mem.Length {
        return None;
      }
      forall k | 0 <= k < |bytes| {
        mem[at + k] := bytes[k];
      }
      offset := offset + |bytes|;
      if offset % 8 != 0 {
        offset := offset + (8 - offset % 8);
      }
      ptr := Some(at);
    }

    /** The `k`-th of the writes `ws`. */
    method StrNext(str: seq<Byte>, ghost first: seq<Byte>, ghost ws: seq<Write>, ghost k: nat) returns (ptr: Option<nat>)
      requires k < |ws| && ws[k] == Write(offset, Terminated(str)) && DoneUpTo(first, ws, k, mem[..])
      modifies this`offset, mem
      ensures ptr.Some? ==> ptr.value == old(offset) && offset == Next(old(offset), str)
      ensures ptr.Some? ==> DoneUpTo(first, ws, k + 1, mem[..])
      ensures ptr.None? ==> !AllWithin(mem.Length, ws) && mem[..] == Perform(first, ws)
    {
      ghost var now := mem[..];
      ptr := StrPtr(str);
      if ptr.Some? {
        OneMoreWrite(first, ws, k, now);
      } else {
        WriteThrows(first, ws, k, now);
      }
    }

    method StrPtrs(strs: seq<seq<Byte>>) returns (ptrs: Option<seq<nat>>)
      modifies this`offset, mem
      ensures ptrs.Some? <==> AllWithin(mem.Length, StringWrites(old(offset), strs))
      ensures ptrs.Some? ==> ptrs.value == Pointers(old(offset), strs) && offset == End(old(offset), strs)
      ensures mem[..] == Perform(old(mem[..]), StringWrites(old(offset), strs))
    {
      ghost var start, first, ws, ptrsOf := offset, mem[..], StringWrites(offset, strs), Pointers(offset, strs);
      var ps: seq<nat> := [];
      for k := 0 to |strs|
        invariant offset == Ptr(start, strs, k)
        invariant ps == ptrsOf[..k]
        invariant DoneUpTo(first, ws, k, mem[..])
      {
        PtrStep(start, strs, k);
        Snoc(ptrsOf, k);
        var ptr := StrNext(strs[k], first, ws, k);
        if ptr.None? {
          return None;
        }
        ps := ps + [ptr.value];
      }
      assert strs[..|strs|] == strs;
      AllDone(first, ws, mem[..]);
      ptrs := Some(ps);
    }

    method SetUint32(addr: nat, v: int) returns (ok: bool)
      modifies mem
      ensures ok <==> Within(mem.Length, Write(addr, WordBytes(v)))
      ensures mem[..] == if ok then Overwrite(old(mem[..]), Write(addr, WordBytes(v))) else old(mem[..])
    {
      if addr + 4 > mem.Length {
        return false;
      }
      var b := WordBytes(v);
      mem[addr], mem[addr + 1], mem[addr + 2], mem[addr + 3] := b[0], b[1], b[2], b[3];
      assert mem[addr..addr + 4] == b;
      assert mem[..] == old(mem[..addr]) + b + old(mem[addr + 4..]);
      ok := true;
    }

    method WriteTable(table: seq<nat>) returns (ok: bool)
      modifies this`offset, mem
      ensures ok <==> AllWithin(mem.Length, TableWrites(old(offset), table))
      ensures ok ==> offset == old(offset) + 8 * |table|
      ensures mem[..] == Perform(old(mem[..]), TableWrites(old(offset), table))
    {
      ghost var argv, first, ws := offset, mem[..], TableWrites(offset, table);
      for i := 0 to |table|
        invariant offset == argv + 8 * i
        invariant DoneUpTo(first, ws, 2 * i, mem[..])
      {
        assert EntryAt(argv, table, ws, i);
        ok := SetNext(offset, table[i], first, ws, 2 * i);
        if !ok {
          return;
        }
        ok := SetNext(offset + 4, 0, first, ws, 2 * i + 1);
        if !ok {
          return;
        }
        offset := offset + 8;
      }
      AllDone(first, ws, mem[..]);
      ok := true;
    }

    /** The `k`-th of the writes `ws`. */
    method SetNext(addr: nat, v: int, ghost first: seq<Byte>, ghost ws: seq<Write>, ghost k: nat) returns (ok: bool)
      requires k < |ws| && ws[k] == Write(addr, WordBytes(v)) && DoneUpTo(first, ws, k, mem[..])
      modifies mem
      ensures ok ==> DoneUpTo(first, ws, k + 1, mem[..])
      ensures !ok ==> !AllWithin(mem.Length, ws) && mem[..] == Perform(first, ws)
    {
      ghost var now := mem[..];
      ok := SetUint32(addr, v);
      if ok {
        OneMoreWrite(first, ws, k, now);
      } else {
        WriteThrows(first, ws, k, now);
      }
    }

    /** Places the arguments, then the environment, then the table of pointers to them.
        Whether all this stays clear of the program's data is looked at last. */
    method Run(args: seq<seq<Byte>>, env: seq<seq<Byte>>) returns (started: Option<(nat, nat)>)
      requires offset == ARGS_START
      modifies this`offset, mem
      ensures mem[..] == Perform(old(mem[..]), AllWrites(args, env))
      ensures started.Some? <==> Fits(mem.Length, args, env)
      ensures started.Some? ==> started.value == (|args|, Argv(args, env)) && LaidOut(mem[..], args, env)
      ensures forall x :: 0 <= x < mem.Length && x < ARGS_START ==> mem[x] == old(mem[x])
      ensures started.Some? || Reach(mem.Length, args, env) <= MIN_DATA_ADDR ==>
                LeavesAlone(old(mem[..]), mem[..], MIN_DATA_ADDR)
    {
      ghost var m := mem[..];
      var argv;
      started, argv := Place(args, env);
      AllWithinExactly(mem.Length, args, env);
      WhatRunLeaves(m, args, env);
      if started.Some? && offset >= MIN_DATA_ADDR {
        started := None;
      }
    }

    method Place(args: seq<seq<Byte>>, env: seq<seq<Byte>>) returns (placed: Option<(nat, nat)>, argv: nat)
      requires offset == ARGS_START
      modifies this`offset, mem
      ensures mem[..] == Perform(old(mem[..]), AllWrites(args, env))
      ensures placed.Some? <==> AllWithin(mem.Length, AllWrites(args, env))
      ensures placed.Some? ==> placed.value == (|args|, Argv(args, env)) && offset == TotalEnd(args, env)
    {
      hide AllWithin, Perform, End, Extent, EntryAt;
      argv := 0;
      ghost var m0 := mem[..];
      ghost var strings := StringWrites(ARGS_START, args) + StringWrites(End(ARGS_START, args), env);
      ghost var words := TableWrites(Argv(args, env), Table(args, env));
      WithinOn(mem.Length, StringWrites(ARGS_START, args), StringWrites(End(ARGS_START, args), env));
      WithinOn(mem.Length, strings, words);
      var argPtrs := StrPtrs(args);
      if argPtrs.None? {
        PerformStops(m0, StringWrites(ARGS_START, args), StringWrites(End(ARGS_START, args), env));
        PerformStops(m0, strings, words);
        return None, 0;
      }
      PerformOn(m0, StringWrites(ARGS_START, args), StringWrites(End(ARGS_START, args), env));
      var envPtrs := StrPtrs(env);
      if envPtrs.None? {
        PerformStops(m0, strings, words);
        return None, 0;
      }
      PerformOn(m0, strings, words);
      argv := offset;
      var table := argPtrs.value + [0] + envPtrs.value + [0];
      assert table == Table(args, env);
      TableSize(args, env);
      var written := WriteTable(table);
      placed := if written then Some((|args|, argv)) else None;
    }
  }

  lemma WhatRunLeaves(m: seq<Byte>, args: seq<seq<Byte>>, env: seq<seq<Byte>>)
    ensures var n := Perform(m, AllWrites(args, env));
            && (Fits(|m|, args, env) ==> LaidOut(n, args, env))
            && (forall x :: 0 <= x < |m| && x < ARGS_START ==> n[x] == m[x])
            && (Fits(|m|, args, env) || Reach(|m|, args, env) <= MIN_DATA_ADDR ==> LeavesAlone(m, n, MIN_DATA_ADDR))
  {
    var ws := AllWrites(args, env);
    WritesAscend(args, env);
    AllWithinExactly(|m|, args, env);
    forall x | 0 <= x < |m| && (x < ARGS_START || x >= Extent(|m|, ws)) ensures Perform(m, ws)[x] == m[x] {
      NothingElseChanges(m, ws, x);
    }
    if Fits(|m|, args, env) {
      forall i | 0 <= i < |ws| ensures WrittenAt(Perform(m, ws), ws[i]) {
        WritesStay(m, ws, i);
      }
    }
  }

  // ---------------------------------------------------------------- what the program reads

  /** The bytes from `p` to the next zero. */
  function ReadString(m: seq<Byte>, p: nat): seq<Byte>
    decreases |m| - p
  {
    if p >= |m| || m[p] == 0 then [] else [m[p]] + ReadString(m, p + 1)
  }

  lemma {:induction false} ReadBackExactly(m: seq<Byte>, p: nat, str: seq<Byte>)
    requires Placed(m, p, Terminated(str))
    ensures ReadString(m, p) == str <==> 0 !in str
    decreases |str|
  {
    PlacedAt(m, p, Terminated(str));
    if str != [] {
      assert Terminated(str) == [str[0]] + Terminated(str[1..]);
      PlacedParts(m, p, [str[0]], Terminated(str[1..]));
      ReadBackExactly(m, p + 1, str[1..]);
      assert str == [str[0]] + str[1..];
    }
  }

  function ReadEntry(m: seq<Byte>, argv: nat, i: nat): seq<Byte>
    requires argv + 8 * i + 4 <= |m|
  {
    ReadString(m, ReadWord(m, argv + 8 * i))
  }

  /** Entry `i` of the table leads to `str`, read exactly as passed if it has no zero in it. */
  ghost predicate Delivered(m: seq<Byte>, argv: nat, i: nat, str: seq<Byte>) {
    argv + 8 * i + 4 <= |m| && (ReadEntry(m, argv, i) == str <==> 0 !in str)
  }

  lemma EntryPoints(m: seq<Byte>, at: nat, ptr: nat)
    requires Placed(m, at, WordBytes(ptr)) && ptr < WORD
    ensures at + 4 <= |m| && ReadWord(m, at) == ptr
  {
    WordRoundTrip(m, at, ptr);
  }

  /** Entry `i` of the table points to `str`. */
  lemma EntryArrives(m: seq<Byte>, argv: nat, i: nat, ptr: nat, str: seq<Byte>)
    requires Placed(m, argv + 8 * i, WordBytes(ptr)) && ptr < WORD && Placed(m, ptr, Terminated(str))
    ensures Delivered(m, argv, i, str)
  {
    EntryPoints(m, argv + 8 * i, ptr);
    ReadBackExactly(m, ptr, str);
  }

  /** The words of entry `i` are among the writes. */
  lemma EntryWritten(m: seq<Byte>, args: seq<seq<Byte>>, env: seq<seq<Byte>>, i: nat)
    requires LaidOut(m, args, env) && i < |Table(args, env)|
    ensures Placed(m, Argv(args, env) + 8 * i, WordBytes(Table(args, env)[i]))
  {
    var words, n := TableWrites(Argv(args, env), Table(args, env)), |args| + |env|;
    assert EntryAt(Argv(args, env), Table(args, env), words, i);
    InSecond(StringWrites(ARGS_START, args) + StringWrites(End(ARGS_START, args), env), words, 2 * i);
    assert WrittenAt(m, AllWrites(args, env)[n + 2 * i]);
  }

  lemma InSecond<T>(a: seq<T>, b: seq<T>, i: nat)
    requires i < |b|
    ensures (a + b)[|a| + i] == b[i]
  {
  }

  /** The program finds every argument again through the table. */
  lemma ArgumentsArrive(m: seq<Byte>, args: seq<seq<Byte>>, env: seq<seq<Byte>>, i: nat)
    requires LaidOut(m, args, env) && Fits(|m|, args, env) && i < |args|
    ensures Delivered(m, Argv(args, env), i, args[i])
  {
    var ptr := Ptr(ARGS_START, args, i);
    ArgumentWritten(m, args, env, i);
    EntryWritten(m, args, env, i);
    EntryArrives(m, Argv(args, env), i, ptr, args[i]);
  }

  lemma ArgumentWritten(m: seq<Byte>, args: seq<seq<Byte>>, env: seq<seq<Byte>>, i: nat)
    requires LaidOut(m, args, env) && Fits(|m|, args, env) && i < |args|
    ensures i < |Table(args, env)| && Table(args, env)[i] == Ptr(ARGS_START, args, i) < WORD
    ensures Placed(m, Ptr(ARGS_START, args, i), Terminated(args[i]))
  {
    PtrsGrow(ARGS_START, args, i);
    StartIsLowest(End(ARGS_START, args), env);
    assert AllWrites(args, env)[i] == StringWrites(ARGS_START, args)[i];
    assert WrittenAt(m, AllWrites(args, env)[i]);
  }

  /** And the environment after the zero that ends the arguments. */
  lemma EnvironmentArrives(m: seq<Byte>, args: seq<seq<Byte>>, env: seq<seq<Byte>>, i: nat)
    requires LaidOut(m, args, env) && Fits(|m|, args, env) && i < |env|
    ensures Delivered(m, Argv(args, env), |args| + 1 + i, env[i])
  {
    var ptr := Ptr(End(ARGS_START, args), env, i);
    EnvironmentWritten(m, args, env, i);
    EntryWritten(m, args, env, |args| + 1 + i);
    EntryArrives(m, Argv(args, env), |args| + 1 + i, ptr, env[i]);
  }

  lemma EnvironmentWritten(m: seq<Byte>, args: seq<seq<Byte>>, env: seq<seq<Byte>>, i: nat)
    requires LaidOut(m, args, env) && Fits(|m|, args, env) && i < |env|
    ensures |args| + 1 + i < |Table(args, env)|
    ensures Table(args, env)[|args| + 1 + i] == Ptr(End(ARGS_START, args), env, i) < WORD
    ensures Placed(m, Ptr(End(ARGS_START, args), env, i), Terminated(env[i]))
  {
    PtrsGrow(End(ARGS_START, args), env, i);
    assert AllWrites(args, env)[|args| + i] == StringWrites(End(ARGS_START, args), env)[i];
    assert WrittenAt(m, AllWrites(args, env)[|args| + i]);
  }

  /** Every entry of the table is a 64-bit integer: the places of the arguments, zero, the
      places of the environment, zero. */
  lemma TableIsRead(m: seq<Byte>, args: seq<seq<Byte>>, env: seq<seq<Byte>>, i: nat)
    requires LaidOut(m, args, env) && Fits(|m|, args, env) && i <= |args| + |env| + 1
    ensures Argv(args, env) + 8 * i + 8 <= |m|
    ensures GetInt64(m, Argv(args, env) + 8 * i) ==
            if i < |args| then Ptr(ARGS_START, args, i)
            else if |args| < i <= |args| + |env| then Ptr(End(ARGS_START, args), env, i - |args| - 1)
            else 0
  {
    hide *;
    TableHolds(args, env, i);
    EntryWritten(m, args, env, i);
    HighWordWritten(m, args, env, i);
    if i < |args| {
      ArgumentWritten(m, args, env, i);
    } else if |args| < i <= |args| + |env| {
      EnvironmentWritten(m, args, env, i - |args| - 1);
    }
    EntryIsRead(m, Argv(args, env) + 8 * i, Table(args, env)[i]);
  }

  lemma TableHolds(args: seq<seq<Byte>>, env: seq<seq<Byte>>, i: nat)
    requires i <= |args| + |env| + 1
    ensures i < |Table(args, env)|
    ensures i == |args| || i == |args| + |env| + 1 ==> Table(args, env)[i] == 0 < WORD
  {
  }

  lemma EntryIsRead(m: seq<Byte>, at: nat, ptr: nat)
    requires Placed(m, at, WordBytes(ptr)) && Placed(m, at + 4, WordBytes(0)) && ptr < WORD
    ensures at + 8 <= |m| && GetInt64(m, at) == ptr
  {
    hide WordBytes, ReadWord;
    EntryPoints(m, at, ptr);
    EntryPoints(m, at + 4, 0);
  }

  lemma HighWordWritten(m: seq<Byte>, args: seq<seq<Byte>>, env: seq<seq<Byte>>, i: nat)
    requires LaidOut(m, args, env) && i < |Table(args, env)|
    ensures Placed(m, Argv(args, env) + 8 * i + 4, WordBytes(0))
  {
    var words, n := TableWrites(Argv(args, env), Table(args, env)), |args| + |env|;
    assert EntryAt(Argv(args, env), Table(args, env), words, i);
    InSecond(StringWrites(ARGS_START, args) + StringWrites(End(ARGS_START, args), env), words, 2 * i + 1);
    assert WrittenAt(m, AllWrites(args, env)[n + (2 * i + 1)]);
  }
}
