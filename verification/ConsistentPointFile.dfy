/**
 The consistent point file: written by seekcp (pkg/binlogtool/cmd/seekcp.go), read in full by
 cpshow (pkg/binlogtool/cmd/cpshow.go) and up to the transactions by recover
 (pkg/binlogtool/cmd/recover.go). Compression is left aside.
 */
module ConsistentPointFile {
  import opened Bytes
  import opened Wrappers
  import opened TxEvents
  import opened BinlogProbe
  import opened BinlogScan
  import opened TxBinary
  import opened SeekConsistentPoint

  // ----- writing -----

  function TxidBytes(txs: seq<u64>): seq<byte> {
    if txs == [] then [] else LittleEndian(txs[0], 8) + TxidBytes(txs[1..])
  }

  function BorderEntry(stream: Name, at: EventOffset): seq<byte> {
    NameEntry(stream) + NameEntry(at.file) + LittleEndian(at.offset, 8)
  }

  /** A map read as Go reads it: the zero value for a missing key. */
  function BorderOf(borders: map<Name, EventOffset>, stream: Name): EventOffset {
    if stream in borders then borders[stream] else EventOffset([], 0)
  }

  /** The borders in the order the streams are visited. */
  function BorderBytes(order: seq<Name>, borders: map<Name, EventOffset>): seq<byte> {
    if order == [] then []
    else BorderEntry(order[0], BorderOf(borders, order[0])) + BorderBytes(order[1..], borders)
  }

  ghost predicate Visits(order: seq<Name>, borders: map<Name, EventOffset>) {
    Distinct(order) && forall n :: n in order <==> n in borders
  }

  function Encoded(txs: seq<u64>, order: seq<Name>, borders: map<Name, EventOffset>): seq<byte> {
    LittleEndian(|txs|, 4) + (TxidBytes(txs) + (LittleEndian(|order|, 2) + BorderBytes(order, borders)))
  }

  lemma {:induction false} TxidsAppend(txs: seq<u64>, x: u64)
    ensures TxidBytes(txs + [x]) == TxidBytes(txs) + LittleEndian(x, 8)
  {
    if txs == [] {
      assert (txs + [x])[1..] == [];
      assert LittleEndian(x, 8) + [] == [] + LittleEndian(x, 8);
    } else {
      assert (txs + [x])[1..] == txs[1..] + [x];
      TxidsAppend(txs[1..], x);
    }
  }

  lemma {:induction false} BordersAppend(order: seq<Name>, stream: Name, borders: map<Name, EventOffset>)
    ensures BorderBytes(order + [stream], borders)
         == BorderBytes(order, borders) + BorderEntry(stream, BorderOf(borders, stream))
  {
    var entry := BorderEntry(stream, BorderOf(borders, stream));
    if order == [] {
      assert (order + [stream])[1..] == [];
      assert entry + [] == [] + entry;
    } else {
      assert (order + [stream])[1..] == order[1..] + [stream];
      BordersAppend(order[1..], stream, borders);
    }
  }

  method WriteTxids(txs: seq<u64>) returns (out: seq<byte>)
    ensures out == TxidBytes(txs)
  {
    out := [];
    for i := 0 to |txs|
      invariant out == TxidBytes(txs[..i])
    {
      out := out + LittleEndian(txs[i], 8);
      TxidsAppend(txs[..i], txs[i]);
      assert txs[..i + 1] == txs[..i] + [txs[i]];
    }
    assert txs[..|txs|] == txs;
  }

  method WriteBorders(order: seq<Name>, borders: map<Name, EventOffset>) returns (out: seq<byte>)
    ensures out == BorderBytes(order, borders)
  {
    out := [];
    for i := 0 to |order|
      invariant out == BorderBytes(order[..i], borders)
    {
      var stream, at := order[i], BorderOf(borders, order[i]);
      var entry := LittleEndian(|stream|, 1) + stream;
      entry := entry + (LittleEndian(|at.file|, 1) + at.file);
      entry := entry + LittleEndian(at.offset, 8);
      out := out + entry;
      BordersAppend(order[..i], stream, borders);
      assert order[..i + 1] == order[..i] + [stream];
    }
    assert order[..|order|] == order;
  }

  /** Writes the file, the borders in whatever order the map is iterated in. */
  method Write(txs: seq<u64>, borders: map<Name, EventOffset>) returns (out: seq<byte>)
    ensures exists order :: Visits(order, borders) && out == Encoded(txs, order, borders)
  {
    var visit := MapKeys(borders.Keys);
    var txids := WriteTxids(txs);
    var entries := WriteBorders(visit, borders);
    DistinctKeys(visit, borders);
    out := LittleEndian(|txs|, 4) + (txids + (LittleEndian(|borders|, 2) + entries));
    assert out == Encoded(txs, visit, borders);
  }

  /** A sequence that visits every key once is as long as the map. */
  lemma DistinctKeys(order: seq<Name>, borders: map<Name, EventOffset>)
    requires Visits(order, borders)
    ensures |order| == |borders|
  {
    assert (set n | n in order) == borders.Keys;
    DistinctSize(order);
  }

  lemma {:induction false} DistinctSize(s: seq<Name>)
    requires Distinct(s)
    ensures |set n | n in s| == |s|
  {
    if s != [] {
      var init, last := s[..|s| - 1], s[|s| - 1];
      DistinctSize(init);
      assert (set n | n in s) == (set n | n in init) + {last};
      assert last !in init;
    }
  }

  // ----- reading -----

  function U16At(content: seq<byte>, pos: nat): Result<u16, Err> {
    Widths();
    if pos + 2 <= |content| then Ok(FromLittleEndian(content[pos..pos + 2]))
    else Err(if pos < |content| then UnexpectedEof else Eof)
  }

  function U32At(content: seq<byte>, pos: nat): Result<u32, Err> {
    Widths();
    if pos + 4 <= |content| then Ok(FromLittleEndian(content[pos..pos + 4]))
    else Err(if pos < |content| then UnexpectedEof else Eof)
  }

  /** n transaction ids from pos on, as a set. */
  function TxidsAt(content: seq<byte>, pos: nat, n: nat): Result<set<u64>, Err>
    decreases n
  {
    if n == 0 then Ok({})
    else
      match U64(content, pos)
      case Err(e) => Err(e)
      case Ok(x) => Joined({x}, TxidsAt(content, pos + 8, n - 1))
  }

  function Joined(txids: set<u64>, r: Result<set<u64>, Err>): Result<set<u64>, Err> {
    match r
    case Err(e) => Err(e)
    case Ok(more) => Ok(txids + more)
  }

  /** A border, and the position after it. */
  datatype BorderRead = BorderRead(stream: Name, at: EventOffset, next: nat)

  function BorderAt(content: seq<byte>, pos: nat): Result<BorderRead, Err> {
    match NameAt(content, pos)
    case Err(e) => Err(e)
    case Ok(NameRead(stream, p)) =>
      match NameAt(content, p)
      case Err(e) => Err(e)
      case Ok(NameRead(file, q)) =>
        match U64(content, q)
        case Err(e) => Err(e)
        case Ok(offset) => Ok(BorderRead(stream, EventOffset(file, offset), q + 8))
  }

  /** n borders from pos on; a later one replaces an earlier one of the same stream. */
  function BordersAt(content: seq<byte>, pos: nat, n: nat): Result<map<Name, EventOffset>, Err>
    decreases n
  {
    if n == 0 then Ok(map[])
    else
      match BorderAt(content, pos)
      case Err(e) => Err(e)
      case Ok(BorderRead(stream, at, p)) => Replaced(map[stream := at], BordersAt(content, p, n - 1))
  }

  function Replaced(borders: map<Name, EventOffset>, r: Result<map<Name, EventOffset>, Err>)
      : Result<map<Name, EventOffset>, Err> {
    match r
    case Err(e) => Err(e)
    case Ok(more) => Ok(borders + more)
  }

  /** The borders after the transactions. */
  function AllBordersAt(content: seq<byte>, pos: nat): Result<map<Name, EventOffset>, Err> {
    match U16At(content, pos)
    case Err(e) => Err(e)
    case Ok(m) => BordersAt(content, pos + 2, m)
  }

  /** The reader of cpshow. */
  function Decoded(content: seq<byte>): Result<(set<u64>, map<Name, EventOffset>), Err> {
    match U32At(content, 0)
    case Err(e) => Err(e)
    case Ok(n) =>
      match TxidsAt(content, 4, n)
      case Err(e) => Err(e)
      case Ok(txids) =>
        match AllBordersAt(content, 4 + 8 * n)
        case Err(e) => Err(e)
        case Ok(borders) => Ok((txids, borders))
  }

  /** The reader of recover. */
  function RecoverableTxids(content: seq<byte>): Result<set<u64>, Err> {
    match U32At(content, 0)
    case Err(e) => Err(e)
    case Ok(n) => TxidsAt(content, 4, n)
  }

  lemma JoinedTwice(txids: set<u64>, x: u64, r: Result<set<u64>, Err>)
    ensures Joined(txids, Joined({x}, r)) == Joined(txids + {x}, r)
  {
    if r.Ok? {
      assert txids + ({x} + r.value) == (txids + {x}) + r.value;
    }
  }

  method ReadTxids(content: seq<byte>, pos: nat, n: nat) returns (r: Result<set<u64>, Err>)
    ensures r == TxidsAt(content, pos, n)
  {
    var txids: set<u64> := {};
    ghost var goal := TxidsAt(content, pos, n);
    assert goal.Ok? ==> {} + goal.value == goal.value;
    for i := 0 to n
      invariant Joined(txids, TxidsAt(content, pos + 8 * i, n - i)) == goal
    {
      var x := U64(content, pos + 8 * i);
      if x.Err? {
        return Err(x.error);
      }
      JoinedTwice(txids, x.value, TxidsAt(content, pos + 8 * i + 8, n - i - 1));
      txids := txids + {x.value};
    }
    assert txids + {} == txids;
    r := Ok(txids);
  }

  method ReadRecoverableTxids(content: seq<byte>) returns (r: Result<set<u64>, Err>)
    ensures r == RecoverableTxids(content)
  {
    var n := U32At(content, 0);
    if n.Err? {
      return Err(n.error);
    }
    r := ReadTxids(content, 4, n.value);
  }

  method ParseConsistentPoint(content: seq<byte>) returns (r: Result<(set<u64>, map<Name, EventOffset>), Err>)
    ensures r == Decoded(content)
  {
    var n := U32At(content, 0);
    if n.Err? {
      return Err(n.error);
    }
    var txids := ReadTxids(content, 4, n.value);
    if txids.Err? {
      return Err(txids.error);
    }
    var count: nat := n.value;
    var pos := 4 + 8 * count;
    var m := U16At(content, pos);
    if m.Err? {
      return Err(m.error);
    }
    var borders := ReadBorders(content, pos + 2, m.value);
    if borders.Err? {
      return Err(borders.error);
    }
    r := Ok((txids.value, borders.value));
  }

  lemma ReplacedTwice(borders: map<Name, EventOffset>, stream: Name, at: EventOffset,
                      r: Result<map<Name, EventOffset>, Err>)
    ensures Replaced(borders, Replaced(map[stream := at], r)) == Replaced(borders[stream := at], r)
  {
    if r.Ok? {
      assert borders + (map[stream := at] + r.value) == borders[stream := at] + r.value;
    }
  }

  method ReadBorders(content: seq<byte>, pos: nat, n: nat) returns (r: Result<map<Name, EventOffset>, Err>)
    ensures r == BordersAt(content, pos, n)
  {
    var borders: map<Name, EventOffset>, p: nat := map[], pos;
    ghost var goal := BordersAt(content, pos, n);
    assert goal.Ok? ==> map[] + goal.value == goal.value;
    for i := 0 to n
      invariant Replaced(borders, BordersAt(content, p, n - i)) == goal
    {
      var b := BorderAt(content, p);
      if b.Err? {
        return Err(b.error);
      }
      var BorderRead(stream, at, next) := b.value;
      ReplacedTwice(borders, stream, at, BordersAt(content, next, n - i - 1));
      borders, p := borders[stream := at], next;
    }
    assert borders + map[] == borders;
    r := Ok(borders);
  }

  /** Whatever the file, the short reader gets the transactions the full one does. */
  lemma ShortReaderAgrees(content: seq<byte>)
    requires Decoded(content).Ok?
    ensures RecoverableTxids(content) == Ok(Decoded(content).value.0)
  {
  }

  // ----- round trip -----

  function SetOf(txs: seq<u64>): set<u64> { set x | x in txs }

  lemma {:induction false} TxidsLength(txs: seq<u64>)
    ensures |TxidBytes(txs)| == 8 * |txs|
  {
    if txs != [] {
      TxidsLength(txs[1..]);
    }
  }

  lemma {:induction false} TxidsReadBack(c: seq<byte>, p: nat, txs: seq<u64>)
    requires Holds(c, p, TxidBytes(txs))
    ensures TxidsAt(c, p, |txs|) == Ok(SetOf(txs))
    decreases |txs|
  {
    if txs == [] {
      assert SetOf(txs) == {};
    } else {
      HoldsParts(c, p, LittleEndian(txs[0], 8), TxidBytes(txs[1..]));
      U64Held(c, p, txs[0]);
      TxidsReadBack(c, p + 8, txs[1..]);
      assert txs == [txs[0]] + txs[1..];
      assert SetOf(txs) == {txs[0]} + SetOf(txs[1..]);
    }
  }

  /** The names fit their length bytes. */
  predicate ShortNames(borders: map<Name, EventOffset>) {
    forall n :: n in borders ==> |n| <= 255 && |borders[n].file| <= 255
  }

  lemma BorderInParts(c: seq<byte>, p: nat, stream: Name, q: nat, file: Name, r: nat, offset: u64)
    requires NameAt(c, p) == Ok(NameRead(stream, q)) && NameAt(c, q) == Ok(NameRead(file, r)) && U64(c, r) == Ok(offset)
    ensures BorderAt(c, p) == Ok(BorderRead(stream, EventOffset(file, offset), r + 8))
  {
  }

  lemma BorderReadBack(c: seq<byte>, p: nat, stream: Name, at: EventOffset)
    requires |stream| <= 255 && |at.file| <= 255 && Holds(c, p, BorderEntry(stream, at))
    ensures BorderAt(c, p) == Ok(BorderRead(stream, at, p + |BorderEntry(stream, at)|))
  {
    var a, b, d := NameEntry(stream), NameEntry(at.file), LittleEndian(at.offset, 8);
    HoldsParts(c, p, a + b, d);
    HoldsParts(c, p, a, b);
    var q, r := p + |a|, p + |a| + |b|;
    NameReadBack(c, p, stream);
    NameReadBack(c, q, at.file);
    U64Held(c, r, at.offset);
    BorderInParts(c, p, stream, q, at.file, r, at.offset);
  }

  /** The borders of the streams in order. */
  function Chosen(order: seq<Name>, borders: map<Name, EventOffset>): map<Name, EventOffset> {
    map n | n in order :: BorderOf(borders, n)
  }

  lemma ChosenFirst(order: seq<Name>, borders: map<Name, EventOffset>)
    requires order != []
    ensures Chosen(order, borders) == map[order[0] := BorderOf(borders, order[0])] + Chosen(order[1..], borders)
  {
    assert order == [order[0]] + order[1..];
  }

  lemma BordersStep(c: seq<byte>, p: nat, n: nat, stream: Name, at: EventOffset, q: nat, m: map<Name, EventOffset>)
    requires BorderAt(c, p) == Ok(BorderRead(stream, at, q)) && BordersAt(c, q, n) == Ok(m)
    ensures BordersAt(c, p, n + 1) == Ok(map[stream := at] + m)
  {
  }

  lemma FirstBorderReadBack(c: seq<byte>, p: nat, stream: Name, at: EventOffset, rest: seq<byte>) returns (q: nat)
    requires |stream| <= 255 && |at.file| <= 255 && Holds(c, p, BorderEntry(stream, at) + rest)
    ensures BorderAt(c, p) == Ok(BorderRead(stream, at, q)) && Holds(c, q, rest)
  {
    HoldsParts(c, p, BorderEntry(stream, at), rest);
    BorderReadBack(c, p, stream, at);
    q := p + |BorderEntry(stream, at)|;
  }

  lemma {:induction false} BordersReadBack(c: seq<byte>, p: nat, order: seq<Name>, borders: map<Name, EventOffset>)
    returns (m: map<Name, EventOffset>)
    requires ShortNames(borders) && (forall n :: n in order ==> n in borders) &&
             Holds(c, p, BorderBytes(order, borders))
    ensures BordersAt(c, p, |order|) == Ok(m) && m == Chosen(order, borders)
    decreases |order|
  {
    if order == [] {
      m := map[];
    } else {
      var stream, more := order[0], order[1..];
      var q := FirstBorderReadBack(c, p, stream, borders[stream], BorderBytes(more, borders));
      var rest := BordersReadBack(c, q, more, borders);
      BordersStep(c, p, |more|, stream, borders[stream], q, rest);
      ChosenFirst(order, borders);
      m := map[stream := borders[stream]] + rest;
    }
  }

  lemma U16Held(c: seq<byte>, p: nat, n: u16)
    requires Holds(c, p, LittleEndian(n, 2))
    ensures U16At(c, p) == Ok(n)
  {
    Widths();
    NumberRoundTrip(n, 2);
  }

  lemma U32Held(c: seq<byte>, p: nat, n: u32)
    requires Holds(c, p, LittleEndian(n, 4))
    ensures U32At(c, p) == Ok(n)
  {
    Widths();
    NumberRoundTrip(n, 4);
  }

  /** The four parts of a file are in place. */
  ghost predicate PartsHeld(c: seq<byte>, n: seq<byte>, txids: seq<byte>, m: seq<byte>, entries: seq<byte>) {
    Holds(c, 0, n) && Holds(c, |n|, txids) && Holds(c, |n| + |txids|, m) && Holds(c, |n| + |txids| + |m|, entries)
  }

  lemma EncodedHasParts(c: seq<byte>, n: seq<byte>, txids: seq<byte>, m: seq<byte>, entries: seq<byte>)
    requires c == n + (txids + (m + entries))
    ensures PartsHeld(c, n, txids, m, entries)
  {
    assert Holds(c, 0, n + (txids + (m + entries)));
    HoldsParts(c, 0, n, txids + (m + entries));
    HoldsParts(c, |n|, txids, m + entries);
    HoldsParts(c, |n| + |txids|, m, entries);
  }

  lemma NumbersReadBack(c: seq<byte>, txs: seq<u64>, p: nat, m: u16)
    requires |txs| < 0x1_0000_0000 && p == 4 + 8 * |txs|
    requires Holds(c, 0, LittleEndian(|txs|, 4)) && Holds(c, 4, TxidBytes(txs)) && Holds(c, p, LittleEndian(m, 2))
    ensures U32At(c, 0) == Ok(|txs|) && TxidsAt(c, 4, |txs|) == Ok(SetOf(txs)) && U16At(c, p) == Ok(m)
  {
    U32Held(c, 0, |txs|);
    TxidsReadBack(c, 4, txs);
    U16Held(c, p, m);
  }

  lemma AllBordersReadBack(c: seq<byte>, p: nat, order: seq<Name>, borders: map<Name, EventOffset>)
    requires Visits(order, borders) && ShortNames(borders) && Holds(c, p, BorderBytes(order, borders))
    ensures BordersAt(c, p, |order|) == Ok(borders)
  {
    var m := BordersReadBack(c, p, order, borders);
    assert m == borders;
  }

  lemma DecodedInParts(c: seq<byte>, n: u32, txids: set<u64>, p: nat, borders: map<Name, EventOffset>)
    requires U32At(c, 0) == Ok(n) && TxidsAt(c, 4, n) == Ok(txids) && p == 4 + 8 * n &&
             AllBordersAt(c, p) == Ok(borders)
    ensures Decoded(c) == Ok((txids, borders))
  {
  }

  lemma DecodedFrom(c: seq<byte>, txs: seq<u64>, p: nat, m: u16, borders: map<Name, EventOffset>)
    requires |txs| < 0x1_0000_0000 && p == 4 + 8 * |txs|
    requires Holds(c, 0, LittleEndian(|txs|, 4)) && Holds(c, 4, TxidBytes(txs)) && Holds(c, p, LittleEndian(m, 2))
    requires BordersAt(c, p + 2, m) == Ok(borders)
    ensures Decoded(c) == Ok((SetOf(txs), borders))
  {
    NumbersReadBack(c, txs, p, m);
    DecodedInParts(c, |txs|, SetOf(txs), p, borders);
  }

  /**
   Within the bounds of the length fields, reading back what was written gives the transactions
   and the borders, for every order the borders were written in.
   */
  lemma FileRoundTrip(txs: seq<u64>, order: seq<Name>, borders: map<Name, EventOffset>)
    requires Visits(order, borders) && ShortNames(borders)
    requires |txs| < 0x1_0000_0000 && |order| < 0x1_0000
    ensures Decoded(Encoded(txs, order, borders)) == Ok((SetOf(txs), borders))
  {
    var c := Encoded(txs, order, borders);
    TxidsLength(txs);
    EncodedHasParts(c, LittleEndian(|txs|, 4), TxidBytes(txs), LittleEndian(|order|, 2), BorderBytes(order, borders));
    AllBordersReadBack(c, 4 + 8 * |txs| + 2, order, borders);
    DecodedFrom(c, txs, 4 + 8 * |txs|, |order|, borders);
  }

  // ----- what recover reads -----

  lemma {:induction false} TxidsConcat(s: seq<u64>, t: seq<u64>)
    ensures TxidBytes(s + t) == TxidBytes(s) + TxidBytes(t)
  {
    if s == [] {
      assert s + t == t;
    } else {
      assert (s + t)[1..] == s[1..] + t;
      TxidsConcat(s[1..], t);
    }
  }

  /** The transactions a file of txs gives back: its count has four bytes. */
  function Counted(txs: seq<u64>): seq<u64> { txs[..|txs| % 0x1_0000_0000] }

  lemma CountReadBack(c: seq<byte>, n: nat)
    requires Holds(c, 0, LittleEndian(n, 4))
    ensures U32At(c, 0) == Ok(n % 0x1_0000_0000)
  {
    Widths();
    HighBytesDropped(n / 0x1_0000_0000, n % 0x1_0000_0000, 4);
    U32Held(c, 0, n % 0x1_0000_0000);
  }

  lemma CountedReadBack(c: seq<byte>, txs: seq<u64>)
    requires Holds(c, 4, TxidBytes(txs))
    ensures TxidsAt(c, 4, |txs| % 0x1_0000_0000) == Ok(SetOf(Counted(txs)))
  {
    var read := Counted(txs);
    assert txs == read + txs[|read|..];
    TxidsConcat(read, txs[|read|..]);
    HoldsParts(c, 4, TxidBytes(read), TxidBytes(txs[|read|..]));
    TxidsReadBack(c, 4, read);
  }

  /** recover reads the counted transactions, whatever the borders and the lengths of their names. */
  lemma TransactionsReadBack(txs: seq<u64>, order: seq<Name>, borders: map<Name, EventOffset>)
    ensures RecoverableTxids(Encoded(txs, order, borders)) == Ok(SetOf(Counted(txs)))
  {
    var c := Encoded(txs, order, borders);
    TxidsLength(txs);
    EncodedHasParts(c, LittleEndian(|txs|, 4), TxidBytes(txs), LittleEndian(|order|, 2), BorderBytes(order, borders));
    CountReadBack(c, |txs|);
    CountedReadBack(c, txs);
  }

  /** They are all the transactions exactly when their number fits. */
  lemma AllCountedIff(txs: seq<u64>)
    requires Distinct(txs)
    ensures SetOf(Counted(txs)) == SetOf(txs) <==> |txs| < 0x1_0000_0000
  {
    var read := Counted(txs);
    if |txs| < 0x1_0000_0000 {
      assert read == txs;
    } else {
      assert txs[|read|] in SetOf(txs) && txs[|read|] !in SetOf(read);
    }
  }
}
