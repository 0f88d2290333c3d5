/**
 Transaction ids in XA statements (pkg/binlogtool/tx/parser.go, pkg/binlogtool/tx/xa.go): the
 global id of a branch is "drds-", the transaction id in hexadecimal, "@" and more; statements
 quote it as a hexadecimal literal.
 */
module XidText {
  import opened Bytes
  import opened Wrappers
  import opened TxEvents

  datatype TextErr = CommaNotFound | BadHex | BadNumber | OutOfRange | NotXa

  const AT: byte := 64
  const COMMA: byte := 44

  /** "drds-" */
  const TransactionPrefix: Name := [100, 114, 100, 115, 45]
  /** "XA START", "XA COMMIT" and "XA ROLLBACK" */
  const XaStart: Name := [88, 65, 32, 83, 84, 65, 82, 84]
  const XaCommit: Name := [88, 65, 32, 67, 79, 77, 77, 73, 84]
  const XaRollback: Name := [88, 65, 32, 82, 79, 76, 76, 66, 65, 67, 75]

  function FirstPartBefore(s: Name, split: byte): Result<Name, TextErr> {
    var i := IndexByte(s, split);
    if i < |s| then Ok(s[..i]) else Err(CommaNotFound)
  }

  function HexValue(c: byte): Option<nat> {
    if 48 <= c <= 57 then Some(c - 48)
    else if 97 <= c <= 102 then Some(c - 87)
    else if 65 <= c <= 70 then Some(c - 55)
    else None
  }

  /** As strconv.ParseUint(s, 16, 64), up to which error is reported. */
  function ParseHexNumber(s: Name): (r: Result<u64, TextErr>) {
    if s == [] then Err(BadNumber) else HexFrom(s, 0)
  }

  function HexFrom(s: Name, acc: nat): (r: Result<u64, TextErr>)
    ensures r.Err? ==> r.error == BadNumber
  {
    if s == [] then (if acc < 0x1_0000_0000_0000_0000 then Ok(acc) else Err(BadNumber))
    else
      match HexValue(s[0])
      case None => Err(BadNumber)
      case Some(v) => HexFrom(s[1..], acc * 16 + v)
  }

  /** The transaction id of a global transaction id; a part shorter than the prefix makes Go panic. */
  function ParseXidFromGtrid(gtrid: Name): Result<u64, TextErr> {
    match FirstPartBefore(gtrid, AT)
    case Err(e) => Err(e)
    case Ok(part) =>
      if |part| < |TransactionPrefix| then Err(OutOfRange)
      else ParseHexNumber(part[|TransactionPrefix|..])
  }

  // ----- statements -----

  predicate IsSpace(c: byte) { c == 32 || 9 <= c <= 13 }

  function TrimLeft(s: Name): Name {
    if s != [] && IsSpace(s[0]) then TrimLeft(s[1..]) else s
  }

  function TrimRight(s: Name): Name {
    if s != [] && IsSpace(s[|s| - 1]) then TrimRight(s[..|s| - 1]) else s
  }

  /** As hex.DecodeString. */
  function DecodeHex(s: Name): (r: Result<Name, TextErr>)
    ensures r.Err? ==> r.error == BadHex
  {
    if s == [] then Ok([])
    else if |s| == 1 then Err(BadHex)
    else
      match (HexValue(s[0]), HexValue(s[1]))
      case (Some(a), Some(b)) =>
        (match DecodeHex(s[2..])
         case Err(e) => Err(e)
         case Ok(rest) => Ok([a * 16 + b] + rest))
      case _ => Err(BadHex)
  }

  /** The transaction id of the arguments of a statement; text too short to unwrap makes Go panic. */
  function ParseXidFromArgs(args: Name): Result<u64, TextErr> {
    match FirstPartBefore(args, COMMA)
    case Err(e) => Err(e)
    case Ok(part) =>
      var quoted := TrimRight(TrimLeft(part));
      if |quoted| < 3 then Err(OutOfRange)
      else
        match DecodeHex(quoted[2..|quoted| - 1])
        case Err(e) => Err(e)
        case Ok(gtrid) => ParseXidFromGtrid(gtrid)
  }

  function WithType(x: Result<u64, TextErr>, t: EventType): Result<(u64, EventType), TextErr> {
    match x
    case Ok(xid) => Ok((xid, t))
    case Err(e) => Err(e)
  }

  function ParseXidAndType(query: Name): Result<(u64, EventType), TextErr> {
    if XaCommit <= query then WithType(ParseXidFromArgs(query[|XaCommit|..]), Commit)
    else if XaRollback <= query then WithType(ParseXidFromArgs(query[|XaRollback|..]), Rollback)
    else if XaStart <= query then WithType(ParseXidFromArgs(query[|XaStart|..]), Begin)
    else Err(NotXa)
  }

  // ----- the text a server writes, and reading it back -----

  function HexDigit(v: nat): (c: byte)
    requires v < 16
    ensures HexValue(c) == Some(v)
  {
    if v < 10 then 48 + v else 87 + v
  }

  /** x in hexadecimal, without leading zeros. */
  function HexOf(x: nat): (s: Name)
    ensures s != []
    ensures forall i :: 0 <= i < |s| ==> HexValue(s[i]).Some?
  {
    if x < 16 then [HexDigit(x)] else HexOf(x / 16) + [HexDigit(x % 16)]
  }

  function GtridOf(x: u64, rest: Name): Name {
    TransactionPrefix + HexOf(x) + [AT] + rest
  }

  function QuoteHex(s: Name): Name {
    if s == [] then [] else [HexDigit(s[0] / 16), HexDigit(s[0] % 16)] + QuoteHex(s[1..])
  }

  /** A statement on transaction x: the keyword, a space, X'...', a comma and the rest. */
  function Statement(keyword: Name, x: u64, rest: Name, more: Name): Name {
    keyword + ([32, 88, 39] + QuoteHex(GtridOf(x, rest)) + [39]) + [COMMA] + more
  }

  function HexOn(n: nat): Result<u64, TextErr> {
    if n < 0x1_0000_0000_0000_0000 then Ok(n) else Err(BadNumber)
  }

  /** The number a string of hexadecimal digits continues acc to. */
  function HexSum(s: Name, acc: nat): nat
    requires forall i :: 0 <= i < |s| ==> HexValue(s[i]).Some?
    decreases |s|
  {
    if s == [] then acc else HexSum(s[1..], acc * 16 + HexValue(s[0]).value)
  }

  lemma {:induction false} HexSumSnoc(s: Name, c: byte, acc: nat)
    requires (forall i :: 0 <= i < |s| ==> HexValue(s[i]).Some?) && HexValue(c).Some?
    ensures HexSum(s + [c], acc) == HexSum(s, acc) * 16 + HexValue(c).value
    decreases |s|
  {
    if s == [] {
      assert (s + [c])[1..] == [];
    } else {
      assert (s + [c])[1..] == s[1..] + [c];
      HexSumSnoc(s[1..], c, acc * 16 + HexValue(s[0]).value);
    }
  }

  lemma {:induction false} HexOfSum(x: nat)
    ensures HexSum(HexOf(x), 0) == x
  {
    if x < 16 {
      assert HexOf(x)[1..] == [];
    } else {
      HexOfSum(x / 16);
      HexSumSnoc(HexOf(x / 16), HexDigit(x % 16), 0);
    }
  }

  lemma {:induction false} HexFromIsSum(s: Name, acc: nat)
    requires forall i :: 0 <= i < |s| ==> HexValue(s[i]).Some?
    ensures HexFrom(s, acc) == HexOn(HexSum(s, acc))
    decreases |s|
  {
    if s != [] {
      HexFromIsSum(s[1..], acc * 16 + HexValue(s[0]).value);
    }
  }

  /** The id in a global transaction id is read back, for every transaction. */
  lemma GtridRoundTrip(x: u64, rest: Name)
    ensures ParseXidFromGtrid(GtridOf(x, rest)) == Ok(x)
  {
    var part := TransactionPrefix + HexOf(x);
    IndexByteAt(part, rest, AT);
    assert (part + [AT] + rest)[..|part|] == part;
    assert part[|TransactionPrefix|..] == HexOf(x);
    HexFromIsSum(HexOf(x), 0);
    HexOfSum(x);
  }

  lemma {:induction false} QuoteRoundTrip(s: Name)
    ensures DecodeHex(QuoteHex(s)) == Ok(s)
    ensures forall i :: 0 <= i < |QuoteHex(s)| ==> HexValue(QuoteHex(s)[i]).Some?
  {
    if s != [] {
      QuoteRoundTrip(s[1..]);
      assert QuoteHex(s)[2..] == QuoteHex(s[1..]);
      assert (s[0] / 16) * 16 + s[0] % 16 == s[0];
      assert [s[0]] + s[1..] == s;
    }
  }

  /** A quoted literal of hexadecimal digits has no comma, and unwraps to the digits. */
  lemma QuotedUnwraps(q: Name)
    requires forall i :: 0 <= i < |q| ==> HexValue(q[i]).Some?
    ensures var part := [32, 88, 39] + q + [39];
            COMMA !in part && TrimRight(TrimLeft(part)) == [88, 39] + q + [39]
  {
    var part, quoted := [32, 88, 39] + q + [39], [88, 39] + q + [39];
    assert COMMA !in q;
    assert part[1..] == quoted;
    assert TrimLeft(quoted) == quoted && TrimRight(quoted) == quoted;
  }

  lemma ArgsInParts(part: Name, more: Name, quoted: Name, q: Name, gtrid: Name)
    requires COMMA !in part && TrimRight(TrimLeft(part)) == quoted
    requires |quoted| >= 3 && quoted[2..|quoted| - 1] == q && DecodeHex(q) == Ok(gtrid)
    ensures ParseXidFromArgs(part + [COMMA] + more) == ParseXidFromGtrid(gtrid)
  {
    IndexByteAt(part, more, COMMA);
    assert (part + [COMMA] + more)[..|part|] == part;
  }

  lemma ArgsRoundTrip(x: u64, rest: Name, more: Name)
    ensures ParseXidFromArgs(([32, 88, 39] + QuoteHex(GtridOf(x, rest)) + [39]) + [COMMA] + more) == Ok(x)
  {
    var gtrid := GtridOf(x, rest);
    var q := QuoteHex(gtrid);
    QuoteRoundTrip(gtrid);
    GtridRoundTrip(x, rest);
    QuotedUnwraps(q);
    var quoted := [88, 39] + q + [39];
    assert quoted[2..|quoted| - 1] == q;
    ArgsInParts([32, 88, 39] + q + [39], more, quoted, q, gtrid);
  }

  lemma StatementSplits(keyword: Name, x: u64, rest: Name, more: Name)
    ensures keyword <= Statement(keyword, x, rest, more)
    ensures ParseXidFromArgs(Statement(keyword, x, rest, more)[|keyword|..]) == Ok(x)
  {
    ArgsRoundTrip(x, rest, more);
    assert Statement(keyword, x, rest, more)[|keyword|..]
        == ([32, 88, 39] + QuoteHex(GtridOf(x, rest)) + [39]) + [COMMA] + more;
  }

  lemma Keywords()
    ensures XaCommit == Ascii("XA COMMIT") && XaRollback == Ascii("XA ROLLBACK") && XaStart == Ascii("XA START")
  {
  }

  /** The keyword of the statement that stands for a type of event. */
  function KeywordOf(t: EventType): Name
    requires !t.Prepare?
  {
    match t
    case Commit => Ascii("XA COMMIT")
    case Rollback => Ascii("XA ROLLBACK")
    case Begin => Ascii("XA START")
  }

  lemma KeywordDecides(t: EventType, s: Name, x: u64)
    requires !t.Prepare? && KeywordOf(t) <= s && ParseXidFromArgs(s[|KeywordOf(t)|..]) == Ok(x)
    ensures ParseXidAndType(s) == Ok((x, t))
  {
    Keywords();
    assert s[3] == KeywordOf(t)[3];
  }

  /** A commit, rollback or start statement on any transaction is read back as that. */
  lemma StatementRoundTrip(t: EventType, x: u64, rest: Name, more: Name)
    requires !t.Prepare?
    ensures ParseXidAndType(Statement(KeywordOf(t), x, rest, more)) == Ok((x, t))
  {
    StatementSplits(KeywordOf(t), x, rest, more);
    KeywordDecides(t, Statement(KeywordOf(t), x, rest, more), x);
  }

  // ----- exactly which texts are read, and as what -----

  lemma LowerDigits(v: nat)
    requires v < 16
    ensures Ascii("0123456789abcdef")[v] == if v < 10 then 48 + v else 87 + v
  {
  }

  lemma UpperDigits(v: nat)
    requires v < 16
    ensures Ascii("0123456789ABCDEF")[v] == if v < 10 then 48 + v else 55 + v
  {
  }

  /** A hexadecimal digit is one of the usual sixteen, letters in either case. */
  lemma HexValueIff(c: byte, v: nat)
    ensures HexValue(c) == Some(v)
       <==> v < 16 && (c == Ascii("0123456789abcdef")[v] || c == Ascii("0123456789ABCDEF")[v])
  {
    if v < 16 {
      LowerDigits(v);
      UpperDigits(v);
    }
  }

  /** s is x in hexadecimal. */
  ghost predicate IsHexOf(s: Name, x: nat) {
    s != [] && (forall i :: 0 <= i < |s| ==> HexValue(s[i]).Some?) && HexSum(s, 0) == x
  }

  /** A global transaction id whose part before the first @ is five bytes and x in hexadecimal. */
  ghost predicate GtridParts(gtrid: Name, prefix: Name, hex: Name, rest: Name) {
    gtrid == (prefix + hex) + [AT] + rest && |prefix| == 5 && AT !in prefix + hex
  }

  ghost predicate GtridSays(gtrid: Name, x: u64) {
    exists prefix, hex, rest :: GtridParts(gtrid, prefix, hex, rest) && IsHexOf(hex, x)
  }

  lemma {:induction false} HexFromFails(s: Name, acc: nat)
    requires exists i :: 0 <= i < |s| && HexValue(s[i]).None?
    ensures HexFrom(s, acc).Err?
    decreases |s|
  {
    if HexValue(s[0]).Some? {
      var i :| 0 <= i < |s| && HexValue(s[i]).None?;
      assert s[1..][i - 1] == s[i];
      HexFromFails(s[1..], acc * 16 + HexValue(s[0]).value);
    }
  }

  lemma HexNumberIff(s: Name, x: u64)
    ensures ParseHexNumber(s) == Ok(x) <==> IsHexOf(s, x)
  {
    if forall i :: 0 <= i < |s| ==> HexValue(s[i]).Some? {
      HexFromIsSum(s, 0);
    } else {
      HexFromFails(s, 0);
    }
  }

  lemma PartBeforeIff(s: Name, split: byte, part: Name)
    ensures FirstPartBefore(s, split) == Ok(part) <==> split !in part && exists rest :: s == part + [split] + rest
  {
    var i := IndexByte(s, split);
    if i < |s| && s[..i] == part {
      assert s == part + [split] + s[i + 1..];
    }
    if split !in part && exists rest :: s == part + [split] + rest {
      var rest :| s == part + [split] + rest;
      IndexByteAt(part, rest, split);
      assert s[..i] == part;
    }
  }

  /** The id is read as x if and only if it says x. */
  lemma GtridIff(gtrid: Name, x: u64)
    ensures ParseXidFromGtrid(gtrid) == Ok(x) <==> GtridSays(gtrid, x)
  {
    if ParseXidFromGtrid(gtrid) == Ok(x) {
      var part := FirstPartBefore(gtrid, AT).value;
      PartBeforeIff(gtrid, AT, part);
      var rest :| gtrid == part + [AT] + rest;
      assert part == part[..5] + part[5..];
      HexNumberIff(part[5..], x);
      assert GtridParts(gtrid, part[..5], part[5..], rest);
    }
    if GtridSays(gtrid, x) {
      var prefix, hex, rest :| GtridParts(gtrid, prefix, hex, rest) && IsHexOf(hex, x);
      PartBeforeIff(gtrid, AT, prefix + hex);
      assert (prefix + hex)[5..] == hex;
      HexNumberIff(hex, x);
    }
  }

  /** q gives the bytes of s, two hexadecimal digits each. */
  ghost predicate IsHexText(q: Name, s: Name) {
    |q| == 2 * |s| && forall i :: 0 <= i < |s| ==> IsHexByte(q, i, s[i])
  }

  predicate IsHexByte(q: Name, i: nat, b: byte)
    requires 2 * i + 1 < |q|
  {
    HexValue(q[2 * i]) == Some(b / 16) && HexValue(q[2 * i + 1]) == Some(b % 16)
  }

  lemma HexTextStep(q: Name, s: Name)
    requires |q| >= 2 && s != []
    ensures IsHexText(q, s) <==> IsHexByte(q, 0, s[0]) && IsHexText(q[2..], s[1..])
  {
    if |q| == 2 * |s| {
      forall i | 0 < i < |s| ensures IsHexByte(q, i, s[i]) <==> IsHexByte(q[2..], i - 1, s[1..][i - 1]) {
        assert q[2 * i] == q[2..][2 * (i - 1)] && q[2 * i + 1] == q[2..][2 * (i - 1) + 1];
      }
      if IsHexText(q, s) {
        forall i | 0 <= i < |s[1..]| ensures IsHexByte(q[2..], i, s[1..][i]) {
          assert IsHexByte(q, i + 1, s[i + 1]);
        }
      }
      if IsHexByte(q, 0, s[0]) && IsHexText(q[2..], s[1..]) {
        forall i | 0 <= i < |s| ensures IsHexByte(q, i, s[i]) {
          if i > 0 {
            assert IsHexByte(q[2..], i - 1, s[1..][i - 1]);
          }
        }
      }
    }
  }

  lemma {:induction false} DecodeHexIff(q: Name, s: Name)
    ensures DecodeHex(q) == Ok(s) <==> IsHexText(q, s)
    decreases |q|
  {
    if |q| >= 2 && s != [] {
      HexTextStep(q, s);
      DecodeHexIff(q[2..], s[1..]);
      assert s == [s[0]] + s[1..];
    }
  }

  predicate AllSpaces(s: Name) { forall i :: 0 <= i < |s| ==> IsSpace(s[i]) }

  /** core with spaces around it, and none at its ends. */
  predicate Padded(part: Name, left: Name, core: Name, right: Name) {
    && part == left + core + right && AllSpaces(left) && AllSpaces(right)
    && core != [] && !IsSpace(core[0]) && !IsSpace(core[|core| - 1])
  }

  lemma {:induction false} TrimLeftDrops(s: Name) returns (left: Name)
    ensures s == left + TrimLeft(s) && AllSpaces(left)
    ensures TrimLeft(s) != [] ==> !IsSpace(TrimLeft(s)[0])
  {
    left := [];
    if s != [] && IsSpace(s[0]) {
      var more := TrimLeftDrops(s[1..]);
      left := [s[0]] + more;
    }
  }

  lemma {:induction false} TrimRightDrops(s: Name) returns (right: Name)
    ensures s == TrimRight(s) + right && AllSpaces(right)
    ensures TrimRight(s) != [] ==> !IsSpace(TrimRight(s)[|TrimRight(s)| - 1])
  {
    right := [];
    if s != [] && IsSpace(s[|s| - 1]) {
      var more := TrimRightDrops(s[..|s| - 1]);
      right := more + [s[|s| - 1]];
    }
  }

  lemma {:induction false} TrimLeftOf(left: Name, s: Name)
    requires AllSpaces(left) && s != [] && !IsSpace(s[0])
    ensures TrimLeft(left + s) == s
  {
    if left == [] {
      assert left + s == s;
    } else {
      assert (left + s)[1..] == left[1..] + s;
      TrimLeftOf(left[1..], s);
    }
  }

  lemma {:induction false} TrimRightOf(s: Name, right: Name)
    requires AllSpaces(right) && s != [] && !IsSpace(s[|s| - 1])
    ensures TrimRight(s + right) == s
  {
    if right == [] {
      assert s + right == s;
    } else {
      var t := s + right;
      assert t[..|t| - 1] == s + right[..|right| - 1] && t[|t| - 1] == right[|right| - 1];
      TrimRightOf(s, right[..|right| - 1]);
    }
  }

  lemma TrimIff(part: Name, core: Name)
    requires core != []
    ensures TrimRight(TrimLeft(part)) == core <==> exists left, right :: Padded(part, left, core, right)
  {
    if TrimRight(TrimLeft(part)) == core {
      var left := TrimLeftDrops(part);
      var right := TrimRightDrops(TrimLeft(part));
      assert TrimLeft(part) == core + right && part == left + core + right;
      assert core[0] == TrimLeft(part)[0];
      assert Padded(part, left, core, right);
    }
    if left, right :| Padded(part, left, core, right) {
      assert part == left + (core + right);
      TrimLeftOf(left, core + right);
      TrimRightOf(core, right);
    }
  }

  /** Arguments up to a comma: spaces, two bytes, the id in hexadecimal, one byte and spaces. */
  ghost predicate ArgsParts(args: Name, part: Name, quoted: Name, gtrid: Name) {
    && COMMA !in part && (exists more :: args == part + [COMMA] + more)
    && |quoted| >= 3 && (exists left, right :: Padded(part, left, quoted, right))
    && IsHexText(quoted[2..|quoted| - 1], gtrid)
  }

  ghost predicate ArgsSay(args: Name, x: u64) {
    exists part, quoted, gtrid :: ArgsParts(args, part, quoted, gtrid) && GtridSays(gtrid, x)
  }

  /** Each step of reading arguments, said by its parts. */
  lemma ArgsPartsIff(args: Name, part: Name, quoted: Name, gtrid: Name)
    requires |quoted| >= 3
    ensures ArgsParts(args, part, quoted, gtrid)
       <==> && FirstPartBefore(args, COMMA) == Ok(part) && TrimRight(TrimLeft(part)) == quoted
            && DecodeHex(quoted[2..|quoted| - 1]) == Ok(gtrid)
  {
    PartBeforeIff(args, COMMA, part);
    TrimIff(part, quoted);
    DecodeHexIff(quoted[2..|quoted| - 1], gtrid);
  }

  lemma ArgsInSteps(args: Name, part: Name, quoted: Name, gtrid: Name)
    requires FirstPartBefore(args, COMMA) == Ok(part) && TrimRight(TrimLeft(part)) == quoted
    requires |quoted| >= 3 && DecodeHex(quoted[2..|quoted| - 1]) == Ok(gtrid)
    ensures ParseXidFromArgs(args) == ParseXidFromGtrid(gtrid)
  {
  }

  lemma StepsOfArgs(args: Name) returns (part: Name, quoted: Name, gtrid: Name)
    requires ParseXidFromArgs(args).Ok?
    ensures FirstPartBefore(args, COMMA) == Ok(part) && TrimRight(TrimLeft(part)) == quoted
    ensures |quoted| >= 3 && DecodeHex(quoted[2..|quoted| - 1]) == Ok(gtrid)
    ensures ParseXidFromArgs(args) == ParseXidFromGtrid(gtrid)
  {
    part := FirstPartBefore(args, COMMA).value;
    quoted := TrimRight(TrimLeft(part));
    gtrid := DecodeHex(quoted[2..|quoted| - 1]).value;
  }

  lemma ArgsIff(args: Name, x: u64)
    ensures ParseXidFromArgs(args) == Ok(x) <==> ArgsSay(args, x)
  {
    if ParseXidFromArgs(args) == Ok(x) {
      var part, quoted, gtrid := StepsOfArgs(args);
      ArgsPartsIff(args, part, quoted, gtrid);
      GtridIff(gtrid, x);
    }
    if part, quoted, gtrid :| ArgsParts(args, part, quoted, gtrid) && GtridSays(gtrid, x) {
      ArgsPartsIff(args, part, quoted, gtrid);
      ArgsInSteps(args, part, quoted, gtrid);
      GtridIff(gtrid, x);
    }
  }

  /** The text is a statement of the kind t on transaction x. */
  ghost predicate Says(text: Name, t: EventType, x: u64) {
    !t.Prepare? && KeywordOf(t) <= text && ArgsSay(text[|KeywordOf(t)|..], x)
  }

  /** A text starts with the keyword of an XA statement. */
  ghost predicate HasKeyword(text: Name) {
    exists t :: IsKeywordOf(text, t)
  }

  predicate IsKeywordOf(text: Name, t: EventType) { !t.Prepare? && KeywordOf(t) <= text }

  lemma OneKeyword(text: Name, t: EventType, t': EventType)
    requires IsKeywordOf(text, t) && IsKeywordOf(text, t')
    ensures t == t'
  {
    Keywords();
    assert text[3] == KeywordOf(t)[3] == KeywordOf(t')[3];
  }

  lemma KeywordReads(text: Name, t: EventType)
    requires IsKeywordOf(text, t)
    ensures ParseXidAndType(text) == WithType(ParseXidFromArgs(text[|KeywordOf(t)|..]), t)
  {
    Keywords();
    assert text[3] == KeywordOf(t)[3];
  }

  lemma NoKeyword(text: Name)
    requires !HasKeyword(text)
    ensures ParseXidAndType(text) == Err(NotXa)
  {
    Keywords();
    assert !IsKeywordOf(text, Commit) && !IsKeywordOf(text, Rollback) && !IsKeywordOf(text, Begin);
  }

  lemma SomeKeyword(text: Name, t': EventType, t: EventType, x: u64)
    requires IsKeywordOf(text, t')
    ensures ParseXidAndType(text) == Ok((x, t)) <==> Says(text, t, x)
    ensures ParseXidAndType(text) != Err(NotXa)
  {
    KeywordReads(text, t');
    ArgsIff(text[|KeywordOf(t')|..], x);
    if IsKeywordOf(text, t) {
      OneKeyword(text, t, t');
    }
  }

  /** A text is read as a statement of kind t on x if and only if it says that; without a keyword it is none. */
  lemma StatementIff(text: Name, t: EventType, x: u64)
    ensures ParseXidAndType(text) == Ok((x, t)) <==> Says(text, t, x)
    ensures ParseXidAndType(text) == Err(NotXa) <==> !HasKeyword(text)
  {
    if t' :| IsKeywordOf(text, t') {
      SomeKeyword(text, t', t, x);
    } else {
      NoKeyword(text);
      assert !IsKeywordOf(text, t);
    }
  }
}
