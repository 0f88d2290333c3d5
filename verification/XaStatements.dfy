/**
 The statements the recover command sends (pkg/binlogtool/cmd/recover.go), as text, and how a
 server reads such text.
 */
module XaStatements {
  import opened Bytes
  import opened Wrappers
  import opened XidText

  datatype XaTrans = XaTrans(formatId: u32, gtrid: Name, bqual: Name)

  /** What a statement asks for. */
  datatype XaCommand = XaCommitOf(t: XaTrans) | XaRollbackOf(t: XaTrans)

  const QUOTE: byte := 39

  // ----- the text sent -----

  function Quoted(s: Name): Name { [QUOTE] + s + [QUOTE] }

  /** The ids of a branch as a statement gives them. */
  function IdsOf(t: XaTrans, separator: Name): Name {
    Quoted(t.gtrid) + (separator + (Quoted(t.bqual) + ([COMMA] + DecimalOf(t.formatId))))
  }

  /** XA COMMIT 'gtrid', 'bqual',format and XA ROLLBACK 'gtrid','bqual',format; the latter has no space. */
  function TextOf(s: XaCommand): Name {
    match s
    case XaCommitOf(t) => XaCommit + ([32] + IdsOf(t, [COMMA, 32]))
    case XaRollbackOf(t) => XaRollback + ([32] + IdsOf(t, [COMMA]))
  }

  // ----- reading it -----

  /** A quoted string at the start of s, and what follows it. */
  function Unquoted(s: Name): Option<(Name, Name)> {
    if s == [] || s[0] != QUOTE then None
    else
      var i := IndexByte(s[1..], QUOTE);
      if i == |s| - 1 then None else Some((s[1..][..i], s[1..][i + 1..]))
  }

  /** What follows a comma and the spaces around it. */
  function AfterComma(s: Name): Option<Name> {
    var t := TrimLeft(s);
    if t != [] && t[0] == COMMA then Some(TrimLeft(t[1..])) else None
  }

  /** The decimal number that continues acc with the digits of s. */
  function ReadDigits(s: Name, acc: nat): Option<nat> {
    if s == [] then Some(acc)
    else if 48 <= s[0] <= 57 then ReadDigits(s[1..], acc * 10 + (s[0] - 48))
    else None
  }

  function ReadFormat(s: Name): Option<u32> {
    if s == [] then None
    else
      match ReadDigits(s, 0)
      case Some(n) => if n < 0x1_0000_0000 then Some(n) else None
      case None => None
  }

  /** A quoted string and the rest after the comma that follows it. */
  function ReadId(s: Name): Option<(Name, Name)> {
    match Unquoted(s)
    case None => None
    case Some((id, rest)) =>
      match AfterComma(rest)
      case None => None
      case Some(more) => Some((id, more))
  }

  /** Two quoted ids and a decimal format, separated by commas. */
  function ReadIds(s: Name): Option<XaTrans> {
    match ReadId(s)
    case None => None
    case Some((gtrid, rest)) =>
      match ReadId(rest)
      case None => None
      case Some((bqual, format)) =>
        match ReadFormat(format)
        case None => None
        case Some(n) => Some(XaTrans(n, gtrid, bqual))
  }

  /** The statement a text is, if it is one. */
  function ReadStatement(text: Name): Option<XaCommand> {
    var commit, rollback := Ascii("XA COMMIT"), Ascii("XA ROLLBACK");
    if commit <= text then
      match ReadIds(TrimLeft(text[|commit|..]))
      case Some(t) => Some(XaCommitOf(t))
      case None => None
    else if rollback <= text then
      match ReadIds(TrimLeft(text[|rollback|..]))
      case Some(t) => Some(XaRollbackOf(t))
      case None => None
    else None
  }

  // ----- it reads back -----

  predicate Quotable(t: XaTrans) { QUOTE !in t.gtrid && QUOTE !in t.bqual }

  lemma UnquotedReadBack(a: Name, rest: Name)
    requires QUOTE !in a
    ensures Unquoted(Quoted(a) + rest) == Some((a, rest))
  {
    var s := Quoted(a) + rest;
    assert s[1..] == a + [QUOTE] + rest;
    IndexByteAt(a, rest, QUOTE);
    assert s[1..][..|a|] == a && s[1..][|a| + 1..] == rest;
  }

  lemma CommaReadBack(separator: Name, rest: Name)
    requires (separator == [COMMA] || separator == [COMMA, 32]) && rest != [] && !IsSpace(rest[0])
    ensures AfterComma(separator + rest) == Some(rest)
  {
    var t := separator + rest;
    assert TrimLeft(t) == t && TrimLeft(rest) == rest;
    if separator == [COMMA] {
      assert t[1..] == rest;
    } else {
      assert t[1..] == [32] + rest && ([32] + rest)[1..] == rest;
    }
  }

  lemma IdReadBack(a: Name, separator: Name, rest: Name)
    requires QUOTE !in a && (separator == [COMMA] || separator == [COMMA, 32]) && rest != [] && !IsSpace(rest[0])
    ensures ReadId(Quoted(a) + (separator + rest)) == Some((a, rest))
  {
    UnquotedReadBack(a, separator + rest);
    CommaReadBack(separator, rest);
  }

  lemma {:induction false} DigitsAppend(s: Name, d: byte, acc: nat)
    requires 48 <= d <= 57 && ReadDigits(s, acc).Some?
    ensures ReadDigits(s + [d], acc) == Some(ReadDigits(s, acc).value * 10 + (d - 48))
    decreases |s|
  {
    if s == [] {
      assert (s + [d])[1..] == [];
    } else {
      assert (s + [d])[1..] == s[1..] + [d];
      DigitsAppend(s[1..], d, acc * 10 + (s[0] - 48));
    }
  }

  lemma {:induction false} DecimalReadBack(n: nat)
    ensures DecimalOf(n) != [] && 48 <= DecimalOf(n)[0] <= 57 && ReadDigits(DecimalOf(n), 0) == Some(n)
  {
    if n < 10 {
      assert DecimalOf(n)[1..] == [];
    } else {
      DecimalReadBack(n / 10);
      DigitsAppend(DecimalOf(n / 10), 48 + n % 10, 0);
    }
  }

  lemma IdsReadBack(t: XaTrans, separator: Name)
    requires Quotable(t) && (separator == [COMMA] || separator == [COMMA, 32])
    ensures ReadIds(IdsOf(t, separator)) == Some(t)
  {
    var d := DecimalOf(t.formatId);
    var rest := Quoted(t.bqual) + ([COMMA] + d);
    DecimalReadBack(t.formatId);
    IdReadBack(t.gtrid, separator, rest);
    IdReadBack(t.bqual, [COMMA], d);
    IdsInParts(IdsOf(t, separator), t, rest, d);
  }

  lemma IdsInParts(s: Name, t: XaTrans, rest: Name, format: Name)
    requires ReadId(s) == Some((t.gtrid, rest)) && ReadId(rest) == Some((t.bqual, format))
    requires format != [] && ReadDigits(format, 0) == Some(t.formatId)
    ensures ReadIds(s) == Some(t)
  {
  }

  /** How many quotes there are. */
  function Quotes(s: Name): nat { multiset(s)[QUOTE] }

  lemma QuotesAdd(a: Name, b: Name)
    ensures Quotes(a + b) == Quotes(a) + Quotes(b)
  {
  }

  lemma {:induction false} TrimKeepsQuotes(s: Name)
    ensures Quotes(TrimLeft(s)) == Quotes(s)
  {
    if s != [] && IsSpace(s[0]) {
      TrimKeepsQuotes(s[1..]);
      assert s == [s[0]] + s[1..];
    }
  }

  lemma UnquotedTakesTwo(s: Name, id: Name, rest: Name)
    requires Unquoted(s) == Some((id, rest))
    ensures Quotes(s) == 2 + Quotes(rest)
  {
    assert s == Quoted(id) + rest;
    QuotesAdd(Quoted(id), rest);
    QuotesAdd([QUOTE] + id, [QUOTE]);
    QuotesAdd([QUOTE], id);
    assert QUOTE !in id;
  }

  lemma CommaKeepsQuotes(s: Name, rest: Name)
    requires AfterComma(s) == Some(rest)
    ensures Quotes(s) == Quotes(rest)
  {
    var t := TrimLeft(s);
    TrimKeepsQuotes(s);
    TrimKeepsQuotes(t[1..]);
    assert t == [t[0]] + t[1..];
    QuotesAdd([t[0]], t[1..]);
  }

  /** A quoted string takes two quotes. */
  lemma IdTakesTwo(s: Name)
    requires ReadId(s).Some?
    ensures Quotes(s) == 2 + Quotes(ReadId(s).value.1)
  {
    var (id, rest) := Unquoted(s).value;
    UnquotedTakesTwo(s, id, rest);
    CommaKeepsQuotes(rest, ReadId(s).value.1);
  }

  lemma {:induction false} DigitsHaveNone(s: Name, acc: nat)
    requires ReadDigits(s, acc).Some?
    ensures Quotes(s) == 0
    decreases |s|
  {
    if s != [] {
      DigitsHaveNone(s[1..], acc * 10 + (s[0] - 48));
      assert s == [s[0]] + s[1..];
    }
  }

  /** A text that can be read has four quotes, no more. */
  lemma ReadHasFour(s: Name)
    requires ReadIds(s).Some?
    ensures Quotes(s) == 4
  {
    var rest := ReadId(s).value.1;
    IdTakesTwo(s);
    IdTakesTwo(rest);
    DigitsHaveNone(ReadId(rest).value.1, 0);
  }

  lemma QuotesInIds(t: XaTrans, separator: Name)
    requires separator == [COMMA] || separator == [COMMA, 32]
    ensures Quotes(IdsOf(t, separator)) == 4 + Quotes(t.gtrid) + Quotes(t.bqual)
  {
    var d := DecimalOf(t.formatId);
    DecimalReadBack(t.formatId);
    DigitsHaveNone(d, 0);
    QuotesAdd(Quoted(t.gtrid), separator + (Quoted(t.bqual) + ([COMMA] + d)));
    QuotesAdd(separator, Quoted(t.bqual) + ([COMMA] + d));
    QuotesAdd(Quoted(t.bqual), [COMMA] + d);
    QuotesAdd([COMMA], d);
  }

  /** Ids with quotes of their own cannot be read. */
  lemma IdsUnreadable(t: XaTrans, separator: Name)
    requires !Quotable(t) && (separator == [COMMA] || separator == [COMMA, 32])
    ensures ReadIds(IdsOf(t, separator)).None?
  {
    QuotesInIds(t, separator);
    if ReadIds(IdsOf(t, separator)).Some? {
      ReadHasFour(IdsOf(t, separator));
    }
  }

  lemma AfterKeyword(keyword: Name, ids: Name)
    requires ids != [] && !IsSpace(ids[0])
    ensures keyword <= keyword + ([32] + ids) && TrimLeft((keyword + ([32] + ids))[|keyword|..]) == ids
  {
    assert (keyword + ([32] + ids))[|keyword|..] == [32] + ids;
    assert ([32] + ids)[1..] == ids;
  }

  lemma CommitReads(text: Name, ids: Name)
    requires XaCommit <= text && TrimLeft(text[|XaCommit|..]) == ids
    ensures ReadStatement(text) == if ReadIds(ids).Some? then Some(XaCommitOf(ReadIds(ids).value)) else None
  {
    Keywords();
  }

  lemma RollbackReads(text: Name, ids: Name)
    requires XaRollback <= text && TrimLeft(text[|XaRollback|..]) == ids
    ensures ReadStatement(text) == if ReadIds(ids).Some? then Some(XaRollbackOf(ReadIds(ids).value)) else None
  {
    Keywords();
    assert text[3] == XaRollback[3] != XaCommit[3];
  }

  lemma IdsReadBackIff(t: XaTrans, separator: Name)
    requires separator == [COMMA] || separator == [COMMA, 32]
    ensures ReadIds(IdsOf(t, separator)) == if Quotable(t) then Some(t) else None
  {
    if Quotable(t) {
      IdsReadBack(t, separator);
    } else {
      IdsUnreadable(t, separator);
    }
  }

  /** A server reads a statement sent back as that statement, and as none at all if an id has a quote in it. */
  lemma TextReadBack(s: XaCommand)
    ensures ReadStatement(TextOf(s)) == if Quotable(s.t) then Some(s) else None
  {
    match s
    case XaCommitOf(t) =>
      IdsReadBackIff(t, [COMMA, 32]);
      AfterKeyword(XaCommit, IdsOf(t, [COMMA, 32]));
      CommitReads(TextOf(s), IdsOf(t, [COMMA, 32]));
    case XaRollbackOf(t) =>
      IdsReadBackIff(t, [COMMA]);
      AfterKeyword(XaRollback, IdsOf(t, [COMMA]));
      RollbackReads(TextOf(s), IdsOf(t, [COMMA]));
  }

  /** So the text says which branch is meant and whether it is committed, as long as its ids have no quotes. */
  lemma TextIsUnambiguous(s: XaCommand, s': XaCommand)
    requires Quotable(s.t) && TextOf(s) == TextOf(s')
    ensures s == s'
  {
    TextReadBack(s);
    TextReadBack(s');
  }
}
