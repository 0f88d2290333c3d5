/**
 The server version in a format description event
 (pkg/binlogtool/binlog/event/format_description_event.go): how it is read, and which versions
 declare a checksum algorithm.
 */
module ServerVersion {
  import opened Bytes
  import opened Wrappers
  import opened BinlogOpen

  const DOT: byte := 46

  /** major.minor.patch, and whatever follows if it is no digit. */
  function VersionText(major: nat, minor: nat, patch: nat, suffix: Name): Name {
    DecimalOf(major) + [DOT] + (DecimalOf(minor) + [DOT] + (DecimalOf(patch) + suffix))
  }

  lemma {:induction false} DecimalDigits(n: nat)
    ensures DecimalOf(n) != [] && forall i :: 0 <= i < |DecimalOf(n)| ==> IsDigit(DecimalOf(n)[i])
  {
    if n >= 10 {
      DecimalDigits(n / 10);
    }
  }

  lemma {:induction false} DecimalIsRead(n: nat)
    ensures Decimal(DecimalOf(n)) == Some(n)
  {
    DecimalDigits(n);
    if n >= 10 {
      DecimalIsRead(n / 10);
      DecimalDigits(n / 10);
      var s := DecimalOf(n);
      assert s[..|s| - 1] == DecimalOf(n / 10) && s[|s| - 1] == 48 + n % 10;
    }
  }

  lemma AtoiIsRead(n: nat)
    ensures Atoi(DecimalOf(n)) == Some(n)
  {
    DecimalDigits(n);
    DecimalIsRead(n);
    assert IsDigit(DecimalOf(n)[0]);
  }

  lemma {:induction false} LeadingAppend(s: Name, t: Name, r: nat)
    requires forall i :: 0 <= i < |s| ==> IsDigit(s[i])
    ensures LeadingDigits(s + t, r) == LeadingDigits(t, LeadingDigits(s, r))
    decreases |s|
  {
    if s == [] {
      assert s + t == t;
    } else {
      assert (s + t)[1..] == s[1..] + t;
      LeadingAppend(s[1..], t, r * 10 + (s[0] - 48));
    }
  }

  lemma {:induction false} LeadingIsRead(n: nat, rest: Name)
    requires rest == [] || !IsDigit(rest[0])
    ensures LeadingDigits(DecimalOf(n) + rest, 0) == n
  {
    DecimalDigits(n);
    LeadingAppend(DecimalOf(n), rest, 0);
    LeadingOfDecimal(n);
  }

  lemma {:induction false} LeadingOfDecimal(n: nat)
    ensures LeadingDigits(DecimalOf(n), 0) == n
  {
    if n < 10 {
      assert DecimalOf(n)[1..] == [];
    } else {
      DecimalDigits(n / 10);
      LeadingOfDecimal(n / 10);
      LeadingAppend(DecimalOf(n / 10), [48 + n % 10], 0);
      assert [48 + n % 10][1..] == [];
    }
  }

  /** The patch number ends where its digits do, also if a dot follows later. */
  lemma PatchIsRead(patch: nat, suffix: Name)
    requires suffix == [] || !IsDigit(suffix[0])
    ensures var u := DecimalOf(patch) + suffix; LeadingDigits(u[..IndexByte(u, DOT)], 0) == patch
  {
    var d, u := DecimalOf(patch), DecimalOf(patch) + suffix;
    var i := IndexByte(u, DOT);
    DecimalDigits(patch);
    assert forall k :: 0 <= k < |d| ==> u[k] == d[k] && IsDigit(d[k]);
    assert i >= |d|;
    assert u[..i] == d + suffix[..i - |d|];
    LeadingIsRead(patch, suffix[..i - |d|]);
  }

  lemma SplitAtDot(n: nat, rest: Name)
    ensures var s := DecimalOf(n) + [DOT] + rest;
            var i := IndexByte(s, DOT);
            i < |s| && s[..i] == DecimalOf(n) && s[i + 1..] == rest
  {
    DecimalDigits(n);
    assert forall i :: 0 <= i < |DecimalOf(n)| ==> DecimalOf(n)[i] != DOT;
    IndexByteAt(DecimalOf(n), rest, DOT);
  }

  lemma {:induction false} ProductInParts(s: Name, i: nat, t: Name, j: nat, u: Name, major: nat, minor: nat, patch: nat)
    requires i == IndexByte(s, 46) < |s| && t == s[i + 1..] && j == IndexByte(t, 46) < |t| && u == t[j + 1..]
    requires Atoi(s[..i]) == Some(major) && Atoi(t[..j]) == Some(minor)
    requires LeadingDigits(u[..IndexByte(u, 46)], 0) == patch
    requires 0 < major <= 255 && minor <= 255 && patch <= 255
    ensures VersionProduct(s) == Some(major * 0x1_0000 + minor * 0x100 + patch)
  {
  }

  /** Any version with parts that fit a byte is read back. */
  lemma VersionReadBack(major: nat, minor: nat, patch: nat, suffix: Name)
    requires 0 < major <= 255 && minor <= 255 && patch <= 255 && (suffix == [] || !IsDigit(suffix[0]))
    ensures VersionProduct(VersionText(major, minor, patch, suffix)) == Some(major * 0x1_0000 + minor * 0x100 + patch)
  {
    var u := DecimalOf(patch) + suffix;
    var t := DecimalOf(minor) + [DOT] + u;
    var s := DecimalOf(major) + [DOT] + t;
    SplitAtDot(major, t);
    SplitAtDot(minor, u);
    AtoiIsRead(major);
    AtoiIsRead(minor);
    PatchIsRead(patch, suffix);
    ProductInParts(s, IndexByte(s, 46), t, IndexByte(t, 46), u, major, minor, patch);
  }

  /** The version is 5.6.1 or later. */
  predicate HasChecksums(major: nat, minor: nat, patch: nat) {
    major > 5 || (major == 5 && (minor > 6 || (minor == 6 && patch >= 1)))
  }

  /** A format description event declares an algorithm if and only if its server is 5.6.1 or later. */
  lemma DeclaresIff(data: seq<byte>, major: nat, minor: nat, patch: nat, suffix: Name)
    requires 0 < major <= 255 && minor <= 255 && patch <= 255 && (suffix == [] || !IsDigit(suffix[0]))
    requires ParseFde(data).Some?
    requires data[2..52][..IndexByte(data[2..52], 0)] == VersionText(major, minor, patch, suffix)
    ensures ParseFde(data).value.alg.Some? <==> HasChecksums(major, minor, patch)
  {
    VersionReadBack(major, minor, patch, suffix);
  }
}
