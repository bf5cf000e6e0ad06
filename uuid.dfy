/**
 * Identifiers: `java.util.UUID` in its canonical text form. Every row id
 * is a UUID; request parameters carry ids as strings and are read with
 * `UUID.fromString`, which (since Java 9) accepts any text of at most 36
 * characters made of five hexadecimal groups between four dashes, each
 * group read with `Long.parseLong(group, 16)` and masked to its field's
 * width, and prints the result back in lower case.
 */
module Uuid {
  import opened Wrappers

  /** The canonical lower-case `8-4-4-4-12` text of a UUID. */
  type Id = string

  predicate IsHex(c: char) {
    '0' <= c <= '9' || 'a' <= c <= 'f' || 'A' <= c <= 'F'
  }

  predicate IsLowerHex(c: char) {
    '0' <= c <= '9' || 'a' <= c <= 'f'
  }

  predicate AllHex(s: string) {
    forall i :: 0 <= i < |s| ==> IsHex(s[i])
  }

  predicate IsDashPosition(i: int) {
    i == 8 || i == 13 || i == 18 || i == 23
  }

  /** What `UUID.toString()` prints: dashes at 8, 13, 18 and 23, lower-case hexadecimal digits elsewhere. */
  predicate Canonical(s: string) {
    |s| == 36
    && forall i :: 0 <= i < 36 ==> if IsDashPosition(i) then s[i] == '-' else IsLowerHex(s[i])
  }

  // ------------------------------------------------------------ hex digits

  /** `Character.digit(c, 16)` of an ASCII hexadecimal digit. */
  function HexDigit(c: char): (d: nat)
    requires IsHex(c)
    ensures d < 16
  {
    if '0' <= c <= '9' then c as int - '0' as int
    else if 'a' <= c <= 'f' then c as int - 'a' as int + 10
    else c as int - 'A' as int + 10
  }

  /** The lower-case digit of `d`. */
  function LowerDigit(d: nat): (c: char)
    requires d < 16
    ensures IsLowerHex(c) && HexDigit(c) == d
  {
    if d < 10 then ('0' as int + d) as char else ('a' as int + d - 10) as char
  }

  function Pow16(w: nat): (p: nat)
    ensures p >= 1
  {
    if w == 0 then 1 else 16 * Pow16(w - 1)
  }

  lemma Pow16Widths()
    ensures Pow16(4) == 0x1_0000 && Pow16(8) == 0x1_0000_0000 && Pow16(12) == 0x1_0000_0000_0000
  {
    assert Pow16(2) == 0x100;
    assert Pow16(4) == 0x1_0000;
    assert Pow16(6) == 0x100_0000;
    assert Pow16(8) == 0x1_0000_0000;
    assert Pow16(10) == 0x100_0000_0000;
  }

  /** The number the hexadecimal digits `ds` spell, most significant first. */
  function HexValue(ds: string): (n: nat)
    requires AllHex(ds)
    ensures n < Pow16(|ds|)
  {
    if ds == [] then 0
    else
      var init := HexValue(ds[..|ds| - 1]);
      assert init * 16 + 15 < Pow16(|ds|) by {
        assert init + 1 <= Pow16(|ds| - 1);
      }
      init * 16 + HexDigit(ds[|ds| - 1])
  }

  /** The `w` lower-case hexadecimal digits of `n`, leading zeros included, as `UUID.toString()` prints a field. */
  function Hex(n: nat, w: nat): (s: string)
    requires n < Pow16(w)
    ensures |s| == w && forall i :: 0 <= i < w ==> IsLowerHex(s[i])
  {
    if w == 0 then [] else Hex(n / 16, w - 1) + [LowerDigit(n % 16)]
  }

  /** Printing a field and reading it back gives the field. */
  lemma {:induction false} HexValueOf(n: nat, w: nat)
    requires n < Pow16(w)
    ensures AllHex(Hex(n, w)) && HexValue(Hex(n, w)) == n
  {
    if w > 0 {
      HexValueOf(n / 16, w - 1);
      assert Hex(n, w)[..w - 1] == Hex(n / 16, w - 1);
    }
  }

  /** Reading lower-case digits and printing them back at their own width gives the digits. */
  lemma {:induction false} HexOfValue(ds: string)
    requires forall i :: 0 <= i < |ds| ==> IsLowerHex(ds[i])
    ensures AllHex(ds)
    ensures Hex(HexValue(ds), |ds|) == ds
  {
    if ds != [] {
      var init := ds[..|ds| - 1];
      var last := ds[|ds| - 1];
      HexOfValue(init);
      var n := HexValue(ds);
      assert n == HexValue(init) * 16 + HexDigit(last);
      assert n / 16 == HexValue(init) && n % 16 == HexDigit(last);
      assert LowerDigit(HexDigit(last)) == last;
      assert init + [last] == ds;
    }
  }

  // ---------------------------------------------------------------- dashes

  /** `s.indexOf('-', from)`: the first dash at or after `from`, or -1. */
  function DashFrom(s: string, from: nat): (r: int)
    ensures r == -1 || (from <= r < |s| && s[r] == '-')
    decreases |s| - from
  {
    if from >= |s| then -1 else if s[from] == '-' then from else DashFrom(s, from + 1)
  }

  /** No dash lies between `from` and the one `DashFrom` finds (or the end, when it finds none). */
  lemma {:induction false} DashFromFirst(s: string, from: nat)
    ensures forall k :: from <= k < |s| && (DashFrom(s, from) == -1 || k < DashFrom(s, from)) ==> s[k] != '-'
    decreases |s| - from
  {
    if from < |s| && s[from] != '-' {
      DashFromFirst(s, from + 1);
    }
  }

  /** The next dash after the one at `d`, searching from the start when `d` is -1, as `fromString` chains `indexOf`. */
  function NextDash(s: string, d: int): (r: int)
    requires d >= -1
    ensures r >= -1
  {
    DashFrom(s, (d + 1) as nat)
  }

  lemma DashAt(s: string, from: nat, j: nat)
    requires from <= j < |s| && s[j] == '-'
    requires forall k :: from <= k < j ==> s[k] != '-'
    ensures DashFrom(s, from) == j
  {
    DashFromFirst(s, from);
  }

  lemma NoDashFrom(s: string, from: nat)
    requires forall k :: from <= k < |s| ==> s[k] != '-'
    ensures DashFrom(s, from) == -1
  {
    DashFromFirst(s, from);
  }

  /**
   * The five groups `fromString` reads: the text before, between and after
   * the first four dashes. `None` unless there are exactly four dashes:
   * with fewer the chained search comes back to -1, with more a fifth one
   * is found.
   */
  function Groups(s: string): (r: Option<seq<string>>)
    ensures r.Some? ==> |r.value| == 5
  {
    var d1 := NextDash(s, -1);
    var d2 := NextDash(s, d1);
    var d3 := NextDash(s, d2);
    var d4 := NextDash(s, d3);
    var d5 := NextDash(s, d4);
    if d4 < 0 || d5 >= 0 then None
    else
      assert 0 <= d1 < d2 < d3 < d4 < |s|;
      Some([s[..d1], s[d1 + 1..d2], s[d2 + 1..d3], s[d3 + 1..d4], s[d4 + 1..]])
  }

  /**
   * The groups from `from` on when exactly `n` more dashes follow, read one
   * dash at a time as the chain of `indexOf` calls in `Groups` does.
   */
  function GroupsFrom(s: string, from: nat, n: nat): (r: Option<seq<string>>)
    requires from <= |s|
    ensures r.Some? ==> |r.value| == n + 1
    decreases n
  {
    var d := DashFrom(s, from);
    if n == 0 then (if d < 0 then Some([s[from..]]) else None)
    else if d < 0 then None
    else match GroupsFrom(s, d + 1, n - 1)
      case None => None
      case Some(rest) => Some([s[from..d]] + rest)
  }

  lemma GroupsLast(s: string, from: nat)
    requires from <= |s|
    ensures GroupsFrom(s, from, 0) == if DashFrom(s, from) < 0 then Some([s[from..]]) else None
  {
  }

  lemma GroupsNext(s: string, from: nat, n: nat, d: int, rest: Option<seq<string>>)
    requires from <= |s| && n > 0 && d == DashFrom(s, from) >= 0 && rest == GroupsFrom(s, d + 1, n - 1)
    ensures GroupsFrom(s, from, n) == if rest.None? then None else Some([s[from..d]] + rest.value)
  {
  }

  lemma GroupsAtDashes(s: string, d1: int, d2: int, d3: int, d4: int)
    requires d1 == NextDash(s, -1) >= 0 && d2 == NextDash(s, d1) >= 0 && d3 == NextDash(s, d2) >= 0
    requires d4 == NextDash(s, d3) >= 0 && NextDash(s, d4) < 0
    ensures Groups(s) == Some([s[..d1], s[d1 + 1..d2], s[d2 + 1..d3], s[d3 + 1..d4], s[d4 + 1..]])
  {
  }

  /** Reading one dash at a time takes the text around the four dashes the chain finds. */
  lemma GroupsFromFour(s: string, d1: int, d2: int, d3: int, d4: int)
    requires d1 == NextDash(s, -1) >= 0 && d2 == NextDash(s, d1) >= 0 && d3 == NextDash(s, d2) >= 0
    requires d4 == NextDash(s, d3) >= 0
    ensures var rest := GroupsFrom(s, d4 + 1, 0);
      GroupsFrom(s, 0, 4)
      == if rest.None? then None else Some([s[..d1]] + ([s[d1 + 1..d2]] + ([s[d2 + 1..d3]] + ([s[d3 + 1..d4]] + rest.value))))
  {
    var r2 := GroupsFrom(s, d2 + 1, 2);
    GroupsFromTwo(s, d2, d3, d4);
    var r1 := GroupsFrom(s, d1 + 1, 3);
    GroupsNext(s, d1 + 1, 3, d2, r2);
    GroupsNext(s, 0, 4, d1, r1);
  }

  /** The last three groups, read from after the second dash. */
  lemma GroupsFromTwo(s: string, d2: int, d3: int, d4: int)
    requires 0 <= d2 < |s| && d3 == NextDash(s, d2) >= 0 && d4 == NextDash(s, d3) >= 0
    ensures var rest := GroupsFrom(s, d4 + 1, 0);
      GroupsFrom(s, d2 + 1, 2) == if rest.None? then None else Some([s[d2 + 1..d3]] + ([s[d3 + 1..d4]] + rest.value))
  {
    var r4 := GroupsFrom(s, d4 + 1, 0);
    var r3 := GroupsFrom(s, d3 + 1, 1);
    GroupsNext(s, d3 + 1, 1, d4, r4);
    GroupsNext(s, d2 + 1, 2, d3, r3);
  }

  lemma Cons5<T>(a: T, b: T, c: T, d: T, e: T)
    ensures [a] + ([b] + ([c] + ([d] + [e]))) == [a, b, c, d, e]
  {
  }

  /** With four dashes found, both readings take the same groups, or both refuse a fifth dash. */
  lemma FourDashes(s: string, d1: int, d2: int, d3: int, d4: int)
    requires d1 == NextDash(s, -1) >= 0 && d2 == NextDash(s, d1) >= 0 && d3 == NextDash(s, d2) >= 0
    requires d4 == NextDash(s, d3) >= 0
    ensures GroupsFrom(s, 0, 4) == Groups(s)
  {
    GroupsFromFour(s, d1, d2, d3, d4);
    GroupsLast(s, d4 + 1);
    if NextDash(s, d4) < 0 {
      Cons5(s[..d1], s[d1 + 1..d2], s[d2 + 1..d3], s[d3 + 1..d4], s[d4 + 1..]);
      GroupsAtDashes(s, d1, d2, d3, d4);
    }
  }

  /** With fewer than four dashes, the chain comes back to -1 and reading one dash at a time runs out. */
  lemma FewerDashes(s: string)
    requires var d1 := NextDash(s, -1); var d2 := NextDash(s, d1); var d3 := NextDash(s, d2);
      d1 < 0 || d2 < 0 || d3 < 0 || NextDash(s, d3) < 0
    ensures GroupsFrom(s, 0, 4).None? && Groups(s).None?
  {
    var d1 := NextDash(s, -1);
    var d2 := NextDash(s, d1);
    var d3 := NextDash(s, d2);
    if d1 >= 0 {
      GroupsNext(s, 0, 4, d1, GroupsFrom(s, d1 + 1, 3));
      if d2 >= 0 {
        GroupsNext(s, d1 + 1, 3, d2, GroupsFrom(s, d2 + 1, 2));
        if d3 >= 0 {
          GroupsNext(s, d2 + 1, 2, d3, GroupsFrom(s, d3 + 1, 1));
        }
      }
    }
  }

  /** Reading the groups one dash at a time is the chain of `indexOf` calls. */
  lemma GroupsChain(s: string)
    ensures GroupsFrom(s, 0, 4) == Groups(s)
  {
    var d1 := NextDash(s, -1);
    var d2 := NextDash(s, d1);
    var d3 := NextDash(s, d2);
    var d4 := NextDash(s, d3);
    if d1 >= 0 && d2 >= 0 && d3 >= 0 && d4 >= 0 {
      FourDashes(s, d1, d2, d3, d4);
    } else {
      FewerDashes(s);
    }
  }

  // ----------------------------------------------------------------- parse

  const LongMax: nat := 0x7fff_ffff_ffff_ffff

  /**
   * `Long.parseLong(group, 16)`: an optional '+', at least one digit, and
   * a value no greater than `Long.MAX_VALUE`; `None` where it throws
   * `NumberFormatException`. A group never holds a '-', so the negative
   * form does not arise.
   */
  function ParseLong16(g: string): (r: Option<nat>)
    ensures r.Some? ==> r.value <= LongMax
  {
    var ds := if |g| > 0 && g[0] == '+' then g[1..] else g;
    if |ds| >= 1 && AllHex(ds) && HexValue(ds) <= LongMax then Some(HexValue(ds)) else None
  }

  function Join(a: string, b: string, c: string, d: string, e: string): string {
    a + "-" + b + "-" + c + "-" + d + "-" + e
  }

  lemma JoinCanonical(a: string, b: string, c: string, d: string, e: string)
    requires |a| == 8 && |b| == 4 && |c| == 4 && |d| == 4 && |e| == 12
    requires forall i :: 0 <= i < 8 ==> IsLowerHex(a[i])
    requires forall i :: 0 <= i < 4 ==> IsLowerHex(b[i]) && IsLowerHex(c[i]) && IsLowerHex(d[i])
    requires forall i :: 0 <= i < 12 ==> IsLowerHex(e[i])
    ensures Canonical(Join(a, b, c, d, e))
  {
    var s := Join(a, b, c, d, e);
    assert forall i :: 0 <= i < 8 ==> s[i] == a[i];
    assert forall i :: 9 <= i < 13 ==> s[i] == b[i - 9];
    assert forall i :: 14 <= i < 18 ==> s[i] == c[i - 14];
    assert forall i :: 19 <= i < 23 ==> s[i] == d[i - 19];
    assert forall i :: 24 <= i < 36 ==> s[i] == e[i - 24];
  }

  /**
   * `UUID.toString()` of the UUID `fromString` builds from the five group
   * values: each masked to its field (32, 16, 16, 16 and 48 bits) and
   * printed as 8, 4, 4, 4 and 12 lower-case digits.
   */
  function Format(v1: nat, v2: nat, v3: nat, v4: nat, v5: nat): (r: Id)
    ensures Canonical(r)
  {
    var r := Join(Hex(v1 % Pow16(8), 8), Hex(v2 % Pow16(4), 4), Hex(v3 % Pow16(4), 4), Hex(v4 % Pow16(4), 4),
                  Hex(v5 % Pow16(12), 12));
    JoinCanonical(Hex(v1 % Pow16(8), 8), Hex(v2 % Pow16(4), 4), Hex(v3 % Pow16(4), 4), Hex(v4 % Pow16(4), 4),
                  Hex(v5 % Pow16(12), 12));
    r
  }

  /** `UUID.fromString(s).toString()`, `None` where `fromString` throws. */
  function ParseUuid(s: string): (r: Option<Id>)
    ensures r.Some? ==> Canonical(r.value) && |s| <= 36
  {
    if |s| > 36 then None
    else match GroupsFrom(s, 0, 4)
      case None => None
      case Some(g) =>
        var p1, p2, p3, p4, p5 := ParseLong16(g[0]), ParseLong16(g[1]), ParseLong16(g[2]), ParseLong16(g[3]), ParseLong16(g[4]);
        if p1.Some? && p2.Some? && p3.Some? && p4.Some? && p5.Some? then
          Some(Format(p1.value, p2.value, p3.value, p4.value, p5.value))
        else None
  }

  // ------------------------------------------------------------ properties

  /** A field of lower-case digits is read by `parseLong` and printed back unchanged. */
  lemma LowerGroup(g: string, w: nat)
    requires |g| == w && (w == 4 || w == 8 || w == 12)
    requires forall i :: 0 <= i < w ==> IsLowerHex(g[i])
    ensures AllHex(g)
    ensures ParseLong16(g) == Some(HexValue(g))
    ensures HexValue(g) % Pow16(w) == HexValue(g)
    ensures Hex(HexValue(g) % Pow16(w), w) == g
  {
    HexOfValue(g);
    var n := HexValue(g);
    assert n <= LongMax by {
      Pow16Widths();
    }
    assert g[0] != '+';
    SmallMod(n, Pow16(w));
  }

  lemma SmallMod(n: nat, p: nat)
    requires n < p
    ensures n % p == n
  {
  }

  lemma CanonicalGroup(s: string, a: nat, b: nat, w: nat)
    requires Canonical(s) && b == a + w <= 36 && forall i :: a <= i < b ==> !IsDashPosition(i)
    requires w == 4 || w == 8 || w == 12
    ensures ParseLong16(s[a..b]) == Some(HexValue(s[a..b]))
    ensures Hex(HexValue(s[a..b]) % Pow16(w), w) == s[a..b]
  {
    var g := s[a..b];
    forall i | 0 <= i < w
      ensures IsLowerHex(g[i])
    {
      assert g[i] == s[a + i] && !IsDashPosition(a + i);
    }
    LowerGroup(g, w);
  }

  /** The dashes of canonical text are at 8, 13, 18 and 23, and nowhere else. */
  lemma CanonicalGroups(s: string)
    requires Canonical(s)
    ensures Groups(s) == Some([s[0..8], s[9..13], s[14..18], s[19..23], s[24..36]])
  {
    assert forall k :: 0 <= k < 36 && !IsDashPosition(k) ==> s[k] != '-';
    DashAt(s, 0, 8);
    DashAt(s, 9, 13);
    DashAt(s, 14, 18);
    DashAt(s, 19, 23);
    NoDashFrom(s, 24);
    assert NextDash(s, -1) == 8 && NextDash(s, 8) == 13 && NextDash(s, 13) == 18;
    assert NextDash(s, 18) == 23 && NextDash(s, 23) == -1;
    assert s[..8] == s[0..8] && s[24..] == s[24..36];
  }

  lemma CanonicalJoin(s: string)
    requires Canonical(s)
    ensures s == Join(s[0..8], s[9..13], s[14..18], s[19..23], s[24..36])
  {
    var j := Join(s[0..8], s[9..13], s[14..18], s[19..23], s[24..36]);
    assert |j| == 36;
    forall i | 0 <= i < 36
      ensures j[i] == s[i]
    {
    }
  }

  lemma ParseOfGroups(s: string, g: seq<string>, v1: nat, v2: nat, v3: nat, v4: nat, v5: nat)
    requires |s| <= 36 && GroupsFrom(s, 0, 4) == Some(g)
    requires ParseLong16(g[0]) == Some(v1) && ParseLong16(g[1]) == Some(v2) && ParseLong16(g[2]) == Some(v3)
    requires ParseLong16(g[3]) == Some(v4) && ParseLong16(g[4]) == Some(v5)
    ensures ParseUuid(s) == Some(Format(v1, v2, v3, v4, v5))
  {
  }

  /** Canonical text is the `UUID.toString()` of its own groups' values. */
  lemma CanonicalFormat(s: string)
    requires Canonical(s)
    ensures Format(HexValue(s[0..8]), HexValue(s[9..13]), HexValue(s[14..18]), HexValue(s[19..23]), HexValue(s[24..36])) == s
  {
    CanonicalGroup(s, 0, 8, 8);
    CanonicalGroup(s, 9, 13, 4);
    CanonicalGroup(s, 14, 18, 4);
    CanonicalGroup(s, 19, 23, 4);
    CanonicalGroup(s, 24, 36, 12);
    CanonicalJoin(s);
  }

  /** Canonical text parses to itself. */
  lemma ParseCanonical(s: string)
    requires Canonical(s)
    ensures ParseUuid(s) == Some(s)
  {
    var g := [s[0..8], s[9..13], s[14..18], s[19..23], s[24..36]];
    assert GroupsFrom(s, 0, 4) == Some(g) by { CanonicalGroups(s); GroupsChain(s); }
    var v1, v2, v3, v4, v5 := HexValue(g[0]), HexValue(g[1]), HexValue(g[2]), HexValue(g[3]), HexValue(g[4]);
    assert ParseLong16(g[0]) == Some(v1) by { CanonicalGroup(s, 0, 8, 8); }
    assert ParseLong16(g[1]) == Some(v2) by { CanonicalGroup(s, 9, 13, 4); }
    assert ParseLong16(g[2]) == Some(v3) by { CanonicalGroup(s, 14, 18, 4); }
    assert ParseLong16(g[3]) == Some(v4) by { CanonicalGroup(s, 19, 23, 4); }
    assert ParseLong16(g[4]) == Some(v5) by { CanonicalGroup(s, 24, 36, 12); }
    assert Format(v1, v2, v3, v4, v5) == s by { CanonicalFormat(s); }
    ParseOfGroups(s, g, v1, v2, v3, v4, v5);
  }

  /** Parsing is idempotent: re-reading a parsed id gives the same id. */
  lemma ParseIdempotent(s: string)
    requires ParseUuid(s).Some?
    ensures ParseUuid(ParseUuid(s).value) == ParseUuid(s)
  {
    ParseCanonical(ParseUuid(s).value);
  }

  lemma ShortGroups(s: string)
    requires s == "1-2-3-4-5"
    ensures Groups(s) == Some(["1", "2", "3", "4", "5"])
  {
    DashAt(s, 0, 1);
    DashAt(s, 2, 3);
    DashAt(s, 4, 5);
    DashAt(s, 6, 7);
    NoDashFrom(s, 8);
    assert NextDash(s, -1) == 1 && NextDash(s, 1) == 3 && NextDash(s, 3) == 5;
    assert NextDash(s, 5) == 7 && NextDash(s, 7) == -1;
    assert s[..1] == "1" && s[2..3] == "2" && s[4..5] == "3" && s[6..7] == "4" && s[8..] == "5";
  }

  lemma OneDigit(d: nat, g: string)
    requires 1 <= d <= 9 && |g| == 1 && g[0] == ('0' as int + d) as char
    ensures ParseLong16(g) == Some(d)
  {
    assert g[..0] == [];
  }

  lemma PaddedDigit(d: nat, c: char, w: nat)
    requires 1 <= d <= 9 && c == ('0' as int + d) as char && w >= 1
    ensures Pow16(w) > d && Hex(d, w) == seq(w - 1, _ => '0') + [c]
    decreases w
  {
    if w > 1 {
      PaddedDigit(d, c, w - 1);
      assert Hex(0, w - 1) == seq(w - 1, _ => '0') by { ZeroField(w - 1); }
    }
  }

  lemma ZeroField(w: nat)
    ensures Hex(0, w) == seq(w, _ => '0')
  {
    if w > 0 {
      ZeroField(w - 1);
    }
  }

  lemma ShortField(d: nat, c: char, w: nat)
    requires 1 <= d <= 9 && c == ('0' as int + d) as char && (w == 4 || w == 8 || w == 12)
    ensures Hex(d % Pow16(w), w) == seq(w - 1, _ => '0') + [c]
  {
    Pow16Widths();
    assert d % Pow16(w) == d;
    PaddedDigit(d, c, w);
  }

  lemma ShortFormat()
    ensures Format(1, 2, 3, 4, 5) == "00000001-0002-0003-0004-000000000005"
  {
    ShortField(1, '1', 8);
    ShortField(2, '2', 4);
    ShortField(3, '3', 4);
    ShortField(4, '4', 4);
    ShortField(5, '5', 12);
    assert seq(7, _ => '0') + ['1'] == "00000001";
    assert seq(3, _ => '0') + ['2'] == "0002";
    assert seq(3, _ => '0') + ['3'] == "0003";
    assert seq(3, _ => '0') + ['4'] == "0004";
    assert seq(11, _ => '0') + ['5'] == "000000000005";
    assert Format(1, 2, 3, 4, 5)
      == Join(Hex(1 % Pow16(8), 8), Hex(2 % Pow16(4), 4), Hex(3 % Pow16(4), 4), Hex(4 % Pow16(4), 4), Hex(5 % Pow16(12), 12));
    ShortJoin(Hex(1 % Pow16(8), 8), Hex(2 % Pow16(4), 4), Hex(3 % Pow16(4), 4), Hex(4 % Pow16(4), 4), Hex(5 % Pow16(12), 12));
  }

  lemma ShortJoin(a: string, b: string, c: string, d: string, e: string)
    requires a == "00000001" && b == "0002" && c == "0003" && d == "0004" && e == "000000000005"
    ensures Join(a, b, c, d, e) == "00000001-0002-0003-0004-000000000005"
  {
  }

  /** The short form is read too: each group is a number, padded to its field's width. */
  lemma ShortForm(s: string)
    requires s == "1-2-3-4-5"
    ensures ParseUuid(s) == Some("00000001-0002-0003-0004-000000000005")
  {
    var g := ["1", "2", "3", "4", "5"];
    assert GroupsFrom(s, 0, 4) == Some(g) by {
      ShortGroups(s);
      GroupsChain(s);
    }
    ShortFields(s, g, 1, 2, 3, 4, 5);
  }

  lemma ShortFields(s: string, g: seq<string>, v1: nat, v2: nat, v3: nat, v4: nat, v5: nat)
    requires |s| <= 36 && GroupsFrom(s, 0, 4) == Some(g)
    requires |g| == 5 && forall i :: 0 <= i < 5 ==> g[i] == [('0' as int + i + 1) as char]
    requires v1 == 1 && v2 == 2 && v3 == 3 && v4 == 4 && v5 == 5
    ensures ParseUuid(s) == Some("00000001-0002-0003-0004-000000000005")
  {
    OneDigit(v1, g[0]);
    OneDigit(v2, g[1]);
    OneDigit(v3, g[2]);
    OneDigit(v4, g[3]);
    OneDigit(v5, g[4]);
    assert Format(v1, v2, v3, v4, v5) == "00000001-0002-0003-0004-000000000005" by { ShortFormat(); }
    ParseOfGroups(s, g, v1, v2, v3, v4, v5);
  }
}
