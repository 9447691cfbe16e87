/**
 ORCID identifiers: the format check and the check character.

 An ORCID iD is sixteen characters in four dash-separated groups of four;
 the last character is a check character computed with the ISO/IEC 7064
 MOD 11-2 scheme over the fifteen digits before it, written `X` when its
 value is 10. The header normaliser accepts a bare iD or an orcid.org
 URL and replaces it by the full URL.
 */
module Orcid {
  import opened Wrappers
  import opened Urls
  import Diagnostics

  const OrcidBase: string := "https://orcid.org/"
  const OrcidOrigin: string := "https://orcid.org"

  predicate IsDigit(c: char) {
    '0' <= c <= '9'
  }

  predicate AllDigits(s: string) {
    forall i :: 0 <= i < |s| ==> IsDigit(s[i])
  }

  /** The pattern `^\d{4}-\d{4}-\d{4}-\d{3}(\d|X)$`. */
  predicate WellFormed(id: string) {
    && |id| == 19
    && AllDigits(id[0..4]) && id[4] == '-'
    && AllDigits(id[5..9]) && id[9] == '-'
    && AllDigits(id[10..14]) && id[14] == '-'
    && AllDigits(id[15..18])
    && (IsDigit(id[18]) || id[18] == 'X')
  }

  /** `pathname.slice(1).replace(/\/$/, "")`: the path without its leading
      character and without one trailing slash. */
  function PathToId(pathname: string): (id: string)
    ensures |pathname| >= 1 && pathname[|pathname| - 1] != '/' ==> id == pathname[1..]
    ensures |pathname| >= 2 && pathname[|pathname| - 1] == '/' ==> id == pathname[1..|pathname| - 1]
  {
    var tail := if |pathname| == 0 then "" else pathname[1..];
    if |tail| > 0 && tail[|tail| - 1] == '/' then tail[..|tail| - 1] else tail
  }

  /** The numeric values of the digit characters of `s`, in order
      (`split("")`, `filter(c => /\d/.test(c))`, `map(Number)`). */
  function DigitValues(s: string): (ds: seq<nat>)
    ensures |ds| <= |s|
    ensures forall i :: 0 <= i < |ds| ==> ds[i] < 10
  {
    if |s| == 0 then []
    else if IsDigit(s[0]) then [s[0] as nat - '0' as nat] + DigitValues(s[1..])
    else DigitValues(s[1..])
  }

  /** `reduce((acc, c) => (acc + c) * 2, acc)`. */
  function Reduce(ds: seq<nat>, acc: nat): nat
  {
    if |ds| == 0 then acc else Reduce(ds[1..], (acc + ds[0]) * 2)
  }

  /** The check character `normalizeOrcid` computes from the reduced total:
      `(12 - total % 11) % 11`, written `X` for 10. */
  function CheckChar(total: nat): (c: char)
    ensures IsDigit(c) || c == 'X'
  {
    var v := (12 - total % 11) % 11;
    if v == 10 then 'X' else ('0' as int + v) as char
  }

  /** The value of a check character: its digit, or 10 for `X`. */
  function CheckValue(c: char): (v: nat)
    requires IsDigit(c) || c == 'X'
    ensures v <= 10
  {
    if c == 'X' then 10 else c as nat - '0' as nat
  }

  /** The identifier `normalizeOrcid` accepts: well formed, and its last
      character equal to the check character computed from the digits
      before it. */
  predicate Accepted(id: string) {
    WellFormed(id) && id[18] == CheckChar(Reduce(DigitValues(id[..18]), 0))
  }

  function Pow2(k: nat): (p: nat)
    ensures p >= 1
  {
    if k == 0 then 1 else 2 * Pow2(k - 1)
  }

  /** The ISO/IEC 7064 weighted sum of a digit string: the digit `i`
      positions from the right end (counting the right-most digit as 1)
      carries weight 2 to the power `i`. */
  function Weighted(ds: seq<nat>): nat {
    if |ds| == 0 then 0 else ds[0] * Pow2(|ds|) + Weighted(ds[1..])
  }

  /** ISO/IEC 7064 MOD 11-2, stated directly: the weighted sum of the
      fifteen payload digits plus the check value is 1 modulo 11. */
  predicate Mod112Valid(id: string) {
    WellFormed(id) && (Weighted(DigitValues(id[..18])) + CheckValue(id[18])) % 11 == 1
  }

  /** The left fold of `normalizeOrcid` computes the weighted sum (Horner's rule). */
  lemma {:induction false} ReduceIsWeighted(ds: seq<nat>, acc: nat)
    ensures Reduce(ds, acc) == acc * Pow2(|ds|) + Weighted(ds)
    decreases |ds|
  {
    if |ds| > 0 {
      var rest := ds[1..];
      ReduceIsWeighted(rest, (acc + ds[0]) * 2);
      assert Pow2(|ds|) == 2 * Pow2(|rest|);
      calc {
        Reduce(ds, acc);
        (acc + ds[0]) * 2 * Pow2(|rest|) + Weighted(rest);
        { assert (acc + ds[0]) * 2 * Pow2(|rest|) == (acc + ds[0]) * Pow2(|ds|); }
        (acc + ds[0]) * Pow2(|ds|) + Weighted(rest);
        acc * Pow2(|ds|) + Weighted(ds);
      }
    }
  }

  /** The check-character comparison of `normalizeOrcid` is the MOD 11-2 equation. */
  lemma CheckCharIsMod112(total: nat, c: char)
    requires IsDigit(c) || c == 'X'
    ensures c == CheckChar(total) <==> (total + CheckValue(c)) % 11 == 1
  {
    var m := total % 11;
    var v := CheckValue(c);
    assert (total + v) % 11 == (m + v) % 11;
    if c == 'X' {
      assert c == CheckChar(total) <==> m == 2;
    } else {
      assert c == ('0' as int + v) as char;
    }
  }

  /** The identifiers `normalizeOrcid` accepts are exactly the well-formed
      identifiers valid under ISO/IEC 7064 MOD 11-2. */
  lemma AcceptedIffMod112(id: string)
    ensures Accepted(id) <==> Mod112Valid(id)
  {
    if WellFormed(id) {
      var ds := DigitValues(id[..18]);
      ReduceIsWeighted(ds, 0);
      CheckCharIsMod112(Reduce(ds, 0), id[18]);
    }
  }

  lemma {:induction false} DigitValuesAppend(a: string, b: string)
    ensures DigitValues(a + b) == DigitValues(a) + DigitValues(b)
    decreases |a|
  {
    if |a| == 0 {
      assert a + b == b;
    } else {
      assert (a + b)[1..] == a[1..] + b;
      DigitValuesAppend(a[1..], b);
    }
  }

  /** Replacing one digit `x` by `y` changes the weighted sum by the
      difference times that position's weight. */
  lemma {:induction false} WeightedSubstitution(p: seq<nat>, x: nat, y: nat, s: seq<nat>)
    ensures Weighted(p + [x] + s) + y * Pow2(|s| + 1) == Weighted(p + [y] + s) + x * Pow2(|s| + 1)
    decreases |p|
  {
    if |p| == 0 {
      assert p + [x] + s == [x] + s;
      assert p + [y] + s == [y] + s;
      assert ([x] + s)[1..] == s;
      assert ([y] + s)[1..] == s;
    } else {
      WeightedSubstitution(p[1..], x, y, s);
      assert (p + [x] + s)[1..] == p[1..] + [x] + s;
      assert (p + [y] + s)[1..] == p[1..] + [y] + s;
    }
  }

  /** 11 is prime and does not divide 2: a digit difference times a
      power of two is never a multiple of 11. */
  lemma {:induction false} NotMultipleOfEleven(x: int, k: nat)
    requires 0 < x < 11
    ensures (x * Pow2(k)) % 11 != 0
    decreases k
  {
    if k > 0 {
      NotMultipleOfEleven(x, k - 1);
      var y := x * Pow2(k - 1);
      assert x * Pow2(k) == 2 * y;
      DoubleNotMultiple(y);
    }
  }

  lemma DoubleNotMultiple(y: int)
    requires y % 11 != 0
    ensures (2 * y) % 11 != 0
  {
    var q, r := y / 11, y % 11;
    assert 2 * y == 11 * (2 * q) + 2 * r;
    if 2 * r < 11 {
      assert (2 * y) % 11 == 2 * r;
    } else {
      assert 2 * y == 11 * (2 * q + 1) + (2 * r - 11);
      assert (2 * y) % 11 == 2 * r - 11;
    }
  }

  /** On digit strings: a payload with one digit substituted never
      satisfies the MOD 11-2 equation with the same check value. */
  lemma PayloadSubstitutionDetected(dp: seq<nat>, ds: seq<nat>, v1: nat, v2: nat, cv: nat)
    requires v1 < 10 && v2 < 10 && v1 != v2
    ensures !((Weighted(dp + [v1] + ds) + cv) % 11 == 1 && (Weighted(dp + [v2] + ds) + cv) % 11 == 1)
  {
    var w1, w2 := Weighted(dp + [v1] + ds), Weighted(dp + [v2] + ds);
    var weight := Pow2(|ds| + 1);
    WeightedSubstitution(dp, v1, v2, ds);
    if v1 > v2 {
      NotMultipleOfEleven(v1 - v2, |ds| + 1);
      ResidueOfDifference(w1, w2, v1, v2, weight, cv);
    } else {
      NotMultipleOfEleven(v2 - v1, |ds| + 1);
      ResidueOfDifference(w2, w1, v2, v1, weight, cv);
    }
  }

  lemma ResidueOfDifference(a: int, b: int, x: int, y: int, weight: int, cv: int)
    requires a + y * weight == b + x * weight
    requires ((x - y) * weight) % 11 != 0
    ensures !((a + cv) % 11 == 1 && (b + cv) % 11 == 1)
  {
    assert (x - y) * weight == x * weight - y * weight;
    assert (a + cv) == (b + cv) + (x - y) * weight;
  }

  lemma DigitValuesAround(p: string, c: char, s: string)
    requires IsDigit(c)
    ensures DigitValues(p + [c] + s) == DigitValues(p) + [c as nat - '0' as nat] + DigitValues(s)
  {
    DigitValuesAppend(p, [c] + s);
    assert p + ([c] + s) == p + [c] + s;
    assert ([c] + s)[1..] == s;
  }

  /** The MOD 11-2 check character detects every single-digit
      substitution in the payload: two identifiers that differ in one
      payload digit are never both valid. */
  lemma SingleSubstitutionDetected(p: string, s: string, c1: char, c2: char, check: char)
    requires |p| + |s| == 17
    requires IsDigit(c1) && IsDigit(c2) && c1 != c2
    ensures !(Mod112Valid(p + [c1] + s + [check]) && Mod112Valid(p + [c2] + s + [check]))
  {
    var id1 := p + [c1] + s + [check];
    var id2 := p + [c2] + s + [check];
    assert id1[..18] == p + [c1] + s;
    assert id2[..18] == p + [c2] + s;
    assert id1[18] == check && id2[18] == check;
    if Mod112Valid(id1) && Mod112Valid(id2) {
      DigitValuesAround(p, c1, s);
      DigitValuesAround(p, c2, s);
      PayloadSubstitutionDetected(DigitValues(p), DigitValues(s),
        c1 as nat - '0' as nat, c2 as nat - '0' as nat, CheckValue(check));
    }
  }

  /** `normalizeOrcid`: resolve the value against https://orcid.org/,
      insist on the orcid.org origin, extract the identifier from the
      path, check its format and then its check character; on success
      the value becomes the resolved URL. */
  function NormalizeOrcid(orcid: string, resolve: Resolver): (r: Result<string, Diagnostics.OrcidProblem>)
    ensures resolve(orcid, OrcidBase).Failure? ==>
      r == Failure(Diagnostics.Unresolvable(resolve(orcid, OrcidBase).error))
    ensures resolve(orcid, OrcidBase).Success? ==>
      var url := resolve(orcid, OrcidBase).value;
      var id := PathToId(url.pathname);
      && (r.Success? <==> url.origin == OrcidOrigin && Mod112Valid(id))
      && (r.Success? ==> r.value == url.href)
      && (url.origin != OrcidOrigin ==> r == Failure(Diagnostics.WrongOrigin(url.origin)))
      && (url.origin == OrcidOrigin && !WellFormed(id) ==> r == Failure(Diagnostics.BadFormat(id)))
      && (url.origin == OrcidOrigin && WellFormed(id) && !Mod112Valid(id) ==>
            r == Failure(Diagnostics.BadChecksum(id)))
  {
    match resolve(orcid, OrcidBase)
    case Failure(reason) => Failure(Diagnostics.Unresolvable(reason))
    case Success(url) =>
      if url.origin != OrcidOrigin then Failure(Diagnostics.WrongOrigin(url.origin))
      else
        var id := PathToId(url.pathname);
        if !WellFormed(id) then Failure(Diagnostics.BadFormat(id))
        else
          AcceptedIffMod112(id);
          if id[18] != CheckChar(Reduce(DigitValues(id[..18]), 0)) then
            Failure(Diagnostics.BadChecksum(id))
          else Success(url.href)
  }
}
