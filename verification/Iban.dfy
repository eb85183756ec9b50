/** The IBAN check: known country, exact length, and the remainder 1 modulo 97 of the rearranged
text read as one big decimal number, each letter standing for two digits (A = 10 ... Z = 35). */
module Iban {
  import opened SqlLogic
  import opened Texts
  import opened Modulo97

  predicate IsDigit(c: char) { '0' <= c <= '9' }
  predicate IsLetter(c: char) { 'A' <= c <= 'Z' }
  predicate IsAlnum(c: char) { IsDigit(c) || IsLetter(c) }
  predicate AllAlnum(s: string) { forall c | c in s :: IsAlnum(c) }

  predicate SameClass(x: char, y: char) {
    (IsDigit(x) && IsDigit(y)) || (IsLetter(x) && IsLetter(y))
  }

  /** int(ch, 36) */
  function CharValue(c: char): (v: nat)
    requires IsAlnum(c)
    ensures v < 36 && (v < 10 <==> IsDigit(c))
  {
    if IsDigit(c) then c as int - '0' as int else c as int - 'A' as int + 10
  }

  /** The values are the places in base 36. */
  lemma CharValueMeans(c: char)
    requires IsAlnum(c)
    ensures c == "0123456789ABCDEFGHIJKLMNOPQRSTUVWXYZ"[CharValue(c)]
  {
    var v := CharValue(c);
    assert c as int == if v < 10 then '0' as int + v else 'A' as int + v - 10;
  }

  /** The decimal digits of every character's value, in order. */
  function Expand(s: string): seq<nat>
    requires AllAlnum(s)
  {
    if s == "" then []
    else
      var v := CharValue(s[|s| - 1]);
      Expand(s[..|s| - 1]) + (if v < 10 then [v] else [v / 10, v % 10])
  }

  /** The number a digit string denotes. */
  function Number(ds: seq<nat>): nat {
    if ds == [] then 0 else Number(ds[..|ds| - 1]) * 10 + ds[|ds| - 1]
  }

  function Rearranged(iban: string): string
    requires |iban| >= 4
  {
    iban[4..] + iban[..4]
  }

  function Mod97(iban: string): nat
    requires |iban| >= 4 && AllAlnum(iban)
  {
    Number(Expand(Rearranged(iban))) % 97
  }

  /** The length each known country's IBAN has; 0 for an unknown country. */
  function IsoLength(country: string): (n: nat)
    ensures n == 0 || 15 <= n <= 31
  {
    if country in {"NO"} then 15
    else if country in {"BE"} then 16
    else if country in {"DK", "FI", "NL"} then 18
    else if country in {"SI"} then 19
    else if country in {"AT", "EE", "LT", "LU"} then 20
    else if country in {"CH", "HR", "LI", "LV"} then 21
    else if country in {"BG", "DE", "GB", "IE", "VA"} then 22
    else if country in {"GI"} then 23
    else if country in {"AD", "CZ", "ES", "RO", "SE", "SK"} then 24
    else if country in {"PT"} then 25
    else if country in {"IS"} then 26
    else if country in {"FR", "GR", "IT", "MC", "SM"} then 27
    else if country in {"CY", "HU", "PL"} then 28
    else if country in {"MT"} then 31
    else 0
  }

  predicate IsValid(token: string)
    requires AllAlnum(token)
  {
    |token| >= 2 && IsoLength(token[..2]) != 0 && |token| == IsoLength(token[..2]) && Mod97(token) == 1
  }

  // ---- The remainder, one character at a time -------------------------------------------------

  function Weight(c: char): nat { if IsDigit(c) then 10 else 100 }

  /** One step of the fold, before reduction: never past 9635. */
  function Carry(r: nat, c: char): (n: nat)
    requires r < 97 && IsAlnum(c)
    ensures n <= 9635
  {
    r * Weight(c) + CharValue(c)
  }

  function Residue(r: nat, s: string): (n: nat)
    requires r < 97 && AllAlnum(s)
    ensures n < 97
  {
    if s == "" then r else Carry(Residue(r, s[..|s| - 1]), s[|s| - 1]) % 97
  }

  lemma NumberAppends(ds: seq<nat>, d: nat)
    ensures Number(ds + [d]) == Number(ds) * 10 + d
  {
    assert (ds + [d])[..|ds|] == ds;
  }

  lemma ExpandAppends(s: string, c: char)
    requires AllAlnum(s) && IsAlnum(c)
    ensures AllAlnum(s + [c])
    ensures Number(Expand(s + [c])) == Number(Expand(s)) * Weight(c) + CharValue(c)
  {
    var e, v := Expand(s), CharValue(c);
    assert (s + [c])[..|s|] == s;
    if v < 10 {
      assert Expand(s + [c]) == e + [v];
      NumberAppends(e, v);
    } else {
      assert Expand(s + [c]) == e + [v / 10] + [v % 10];
      NumberAppends(e, v / 10);
      NumberAppends(e + [v / 10], v % 10);
    }
  }

  lemma LastResidue(r: nat, s: string, y: char)
    requires r < 97 && AllAlnum(s) && IsAlnum(y)
    ensures AllAlnum(s + [y]) && Residue(r, s + [y]) == Carry(Residue(r, s), y) % 97
  {
    assert (s + [y])[..|s|] == s;
  }

  /** The big-integer remainder is the small fold. */
  lemma {:induction false} FoldComputesMod97(s: string)
    requires AllAlnum(s)
    ensures Number(Expand(s)) % 97 == Residue(0, s)
  {
    if s != "" {
      var front, c := s[..|s| - 1], s[|s| - 1];
      assert AllAlnum(front) && s == front + [c];
      FoldComputesMod97(front);
      ExpandAppends(front, c);
      LastResidue(0, front, c);
      ModStep(Number(Expand(front)), Weight(c), CharValue(c));
    }
  }

  lemma {:induction false} ResidueSplit(r: nat, a: string, b: string)
    requires r < 97 && AllAlnum(a) && AllAlnum(b)
    ensures AllAlnum(a + b) && Residue(r, a + b) == Residue(Residue(r, a), b)
  {
    if b == "" {
      assert a + b == a;
    } else {
      var front := b[..|b| - 1];
      assert AllAlnum(front) && (a + b)[..|a + b| - 1] == a + front;
      ResidueSplit(r, a, front);
    }
  }

  /** 10 and 100 are units modulo 97: a step maps distinct remainders to distinct remainders. */
  lemma StepInjective(r: nat, q: nat, c: char)
    requires r < 97 && q < 97 && IsAlnum(c) && Carry(r, c) % 97 == Carry(q, c) % 97
    ensures r == q
  {
    UnitStep(r, q, Weight(c), CharValue(c));
  }

  lemma {:induction false} TailInjective(r: nat, q: nat, s: string)
    requires r < 97 && q < 97 && AllAlnum(s) && Residue(r, s) == Residue(q, s)
    ensures r == q
  {
    if s != "" {
      var front := s[..|s| - 1];
      assert AllAlnum(front);
      StepInjective(Residue(r, front), Residue(q, front), s[|s| - 1]);
      TailInjective(r, q, front);
    }
  }

  // ---- Error detection ------------------------------------------------------------------------

  /** Two texts that agree before and after a middle agree in remainder iff their middles do. */
  lemma MiddleDecides(p: string, x: string, y: string, q: string)
    requires AllAlnum(p) && AllAlnum(x) && AllAlnum(y) && AllAlnum(q)
    ensures AllAlnum(p + x + q) && AllAlnum(p + y + q)
    ensures Residue(0, p + x + q) == Residue(0, p + y + q)
       <==> Residue(Residue(0, p), x) == Residue(Residue(0, p), y)
  {
    ResidueSplit(0, p, x);
    ResidueSplit(0, p, y);
    ResidueSplit(0, p + x, q);
    ResidueSplit(0, p + y, q);
    if Residue(0, p + x + q) == Residue(0, p + y + q) {
      TailInjective(Residue(0, p + x), Residue(0, p + y), q);
    }
  }

  lemma OneCharacter(r: nat, x: char, y: char)
    requires r < 97 && SameClass(x, y)
    ensures Residue(r, [x]) == Residue(r, [y]) <==> x == y
  {
    assert [x][..0] == "" && [y][..0] == "";
    var a, b := Carry(r, x), Carry(r, y);
    if a % 97 == b % 97 {
      var k := a / 97 - b / 97;
      assert a - b == 97 * k && -97 < a - b < 97;
    }
  }

  /** Swapping two neighbours goes unnoticed exactly when they are equal, or one is a letter worth
      eleven times the digit beside it. */
  predicate Blind(x: char, y: char)
    requires IsAlnum(x) && IsAlnum(y)
  {
    || x == y
    || (IsDigit(x) && IsLetter(y) && CharValue(y) == 11 * CharValue(x))
    || (IsLetter(x) && IsDigit(y) && CharValue(x) == 11 * CharValue(y))
  }

  lemma PairResidue(r: nat, x: char, y: char)
    requires r < 97 && IsAlnum(x) && IsAlnum(y)
    ensures AllAlnum([x, y])
    ensures Residue(r, [x, y]) == ((r * Weight(x) + CharValue(x)) * Weight(y) + CharValue(y)) % 97
  {
    assert [x, y][..1] == [x] && [x][..0] == "";
    assert Residue(r, [x]) == Carry(r, x) % 97;
    ModStep(Carry(r, x), Weight(y), CharValue(y));
  }

  lemma TwoCharacters(r: nat, x: char, y: char)
    requires r < 97 && IsAlnum(x) && IsAlnum(y)
    ensures AllAlnum([x, y]) && AllAlnum([y, x])
    ensures Residue(r, [x, y]) == Residue(r, [y, x]) <==> Blind(x, y)
  {
    PairResidue(r, x, y);
    PairResidue(r, y, x);
    var a := (r * Weight(x) + CharValue(x)) * Weight(y) + CharValue(y);
    var b := (r * Weight(y) + CharValue(y)) * Weight(x) + CharValue(x);
    var d := CharValue(x) * (Weight(y) - 1) - CharValue(y) * (Weight(x) - 1);
    SwapGap(r, CharValue(x), CharValue(y), Weight(x), Weight(y));
    SmallDifference(a, b, d);
    SwapDifference(CharValue(x), CharValue(y), d);
  }

  lemma {:induction false} RemainderOf(iban: string)
    requires |iban| >= 4 && AllAlnum(iban)
    ensures AllAlnum(Rearranged(iban)) && Mod97(iban) == Residue(0, Rearranged(iban))
  {
    FoldComputesMod97(Rearranged(iban));
  }

  /** Where a character of the token lands after rearrangement. */
  function Landing(n: nat, i: nat): nat
    requires 4 <= n && i < n
  {
    if i < 4 then n - 4 + i else i - 4
  }

  lemma AroundOne(a: string, j: nat, y: char)
    requires j < |a|
    ensures a == a[..j] + [a[j]] + a[j + 1..] && a[j := y] == a[..j] + [y] + a[j + 1..]
  {
  }

  lemma RearrangedUpdate(s: string, i: nat, y: char)
    requires i < |s| && |s| >= 4
    ensures Rearranged(s)[Landing(|s|, i)] == s[i]
    ensures Rearranged(s[i := y]) == Rearranged(s)[Landing(|s|, i) := y]
  {
  }

  lemma Lands(s: string, i: nat, y: char)
    requires i < |s| && |s| >= 4 && AllAlnum(s) && IsAlnum(y)
    ensures var a, j := Rearranged(s), Landing(|s|, i);
            AllAlnum(s[i := y]) && a == a[..j] + [s[i]] + a[j + 1..]
            && Rearranged(s[i := y]) == a[..j] + [y] + a[j + 1..]
  {
    assert forall c | c in s[i := y] :: c in s || c == y;
    RearrangedUpdate(s, i, y);
    AroundOne(Rearranged(s), Landing(|s|, i), y);
  }

  /** One character mistyped for another of its class is always noticed: the remainders differ, so
      the two tokens are never both valid. */
  lemma SubstitutionDetected(s: string, i: nat, y: char)
    requires i < |s| && |s| >= 4 && AllAlnum(s) && SameClass(s[i], y) && s[i] != y
    ensures AllAlnum(s[i := y]) && Mod97(s) != Mod97(s[i := y])
    ensures !(IsValid(s) && IsValid(s[i := y]))
  {
    var j := Landing(|s|, i);
    var a := Rearranged(s);
    Lands(s, i, y);
    RemainderOf(s);
    RemainderOf(s[i := y]);
    assert AllAlnum(a[..j]) && AllAlnum(a[j + 1..]);
    MiddleDecides(a[..j], [s[i]], [y], a[j + 1..]);
    OneCharacter(Residue(0, a[..j]), s[i], y);
  }

  /** Two neighbours of the rearranged text swapped leave the remainder alone exactly when the swap
      is blind. */
  lemma SwapDetectedExactlyWhen(u: string, j: nat)
    requires j + 1 < |u| && AllAlnum(u)
    ensures var v := u[j := u[j + 1]][j + 1 := u[j]];
            AllAlnum(v) && (Residue(0, u) == Residue(0, v) <==> Blind(u[j], u[j + 1]))
  {
    var x, y := u[j], u[j + 1];
    var v := u[j := y][j + 1 := x];
    assert u == u[..j] + [x, y] + u[j + 2..];
    assert v == u[..j] + [y, x] + u[j + 2..];
    TwoCharacters(Residue(0, u[..j]), x, y);
    MiddleDecides(u[..j], [x, y], [y, x], u[j + 2..]);
  }

  /** Two tokens whose rearrangements differ by swapping unequal neighbours of one class are never
      both valid. */
  lemma SwapNeverBothValid(s: string, t: string, j: nat)
    requires |s| == |t| >= 4 && AllAlnum(s) && AllAlnum(t) && j + 1 < |s|
    requires var u := Rearranged(s); Rearranged(t) == u[j := u[j + 1]][j + 1 := u[j]]
    requires var u := Rearranged(s); SameClass(u[j], u[j + 1]) && u[j] != u[j + 1]
    ensures Mod97(s) != Mod97(t) && !(IsValid(s) && IsValid(t))
  {
    RemainderOf(s);
    RemainderOf(t);
    SwapDetectedExactlyWhen(Rearranged(s), j);
  }

  /** The blind pairs of unlike characters are three: 1 and B, 2 and M, 3 and X. */
  lemma BlindPairs(x: char, y: char)
    requires IsDigit(x) && IsLetter(y)
    ensures Blind(x, y) <==> (x == '1' && y == 'B') || (x == '2' && y == 'M') || (x == '3' && y == 'X')
  {
    assert CharValue('B') == 11 && CharValue('M') == 22 && CharValue('X') == 33;
  }

  // ---- The one pair of neighbours that rearranging parts ----------------------------------------

  /** How many digits a text expands to. */
  function Digits(s: string): nat {
    if s == "" then 0 else Digits(s[..|s| - 1]) + if IsDigit(s[|s| - 1]) then 1 else 2
  }

  lemma {:induction false} DigitsBound(s: string)
    ensures |s| <= Digits(s) <= 2 * |s|
  {
    if s != "" { DigitsBound(s[..|s| - 1]); }
  }

  /** Two remainders apart by d before a text are apart by d, shifted, after it. */
  lemma {:induction false} ApartAfter(x: nat, y: nat, s: string)
    requires x < 97 && y < 97 && AllAlnum(s)
    ensures (Residue(x, s) - Residue(y, s)) % 97 == Times((x - y) % 97, Digits(s))
  {
    if s != "" {
      var front, c := s[..|s| - 1], s[|s| - 1];
      assert AllAlnum(front);
      ApartAfter(x, y, front);
      var a, b, v := Residue(x, front), Residue(y, front), CharValue(c);
      if IsDigit(c) {
        ApartStep(a, b, 10, v);
      } else {
        ApartStep(a, b, 100, v);
        TwoMoreDigits((x - y) % 97, Digits(front));
      }
    }
  }

  lemma EndsDiffer(x: char, m: string, y: char, s: string, t: string)
    requires AllAlnum(m) && SameClass(x, y) && CharValue(x) > CharValue(y) && |m| <= 30
    requires s == [x] + m + [y] && t == [y] + m + [x] && AllAlnum(s) && AllAlnum(t)
    ensures Residue(0, s) != Residue(0, t)
  {
    EndsResidue(x, m, y);
    EndsResidue(y, m, x);
    RemaindersDiffer(CharValue(x), CharValue(y), m, Weight(x));
  }

  lemma RemaindersDiffer(v: nat, u: nat, m: string, w: nat)
    requires u < v < 36 && AllAlnum(m) && |m| <= 30 && (w == 10 || w == 100)
    ensures (Residue(v, m) * w + u) % 97 != (Residue(u, m) * w + v) % 97
  {
    ApartAfter(v, u, m);
    DigitsBound(m);
    SwapDiffers(Residue(v, m), Residue(u, m), v, u, w, Digits(m));
  }

  lemma OneResidue(x: char)
    requires IsAlnum(x)
    ensures Residue(0, [x]) == CharValue(x)
  {
    assert [x][..0] == "";
  }

  lemma EndsResidue(x: char, m: string, y: char)
    requires IsAlnum(x) && AllAlnum(m) && IsAlnum(y)
    ensures AllAlnum([x] + m + [y])
    ensures Residue(0, [x] + m + [y]) == Carry(Residue(CharValue(x), m), y) % 97
  {
    OneResidue(x);
    ResidueSplit(0, [x], m);
    LastResidue(0, [x] + m, y);
  }

  function Swapped(s: string, i: nat): string
    requires i + 1 < |s|
  {
    s[i := s[i + 1]][i + 1 := s[i]]
  }

  lemma SwapLands(s: string, i: nat)
    requires |s| >= 5 && i + 1 < |s| && i != 3
    ensures var u, j := Rearranged(s), Landing(|s|, i);
            j + 1 < |u| && u[j] == s[i] && u[j + 1] == s[i + 1] && Rearranged(Swapped(s, i)) == Swapped(u, j)
  {
    var u, j, v := Rearranged(s), Landing(|s|, i), Rearranged(Swapped(s, i));
    assert |v| == |u| && forall k | 0 <= k < |u| :: v[k] == Swapped(u, j)[k];
  }

  lemma EndsLand(s: string)
    requires |s| >= 5 && AllAlnum(s)
    ensures var m := s[5..] + s[..3];
            AllAlnum(m) && Rearranged(s) == [s[4]] + m + [s[3]] && Rearranged(Swapped(s, 3)) == [s[3]] + m + [s[4]]
  {
  }

  /** Two unequal neighbours of one class swapped anywhere in a token: never both valid. Rearranging
      keeps every pair of neighbours together but the fourth and fifth, which go to its two ends. */
  lemma NeighbourSwapDetected(s: string, i: nat)
    requires i + 1 < |s| && AllAlnum(s) && SameClass(s[i], s[i + 1]) && s[i] != s[i + 1]
    ensures AllAlnum(Swapped(s, i)) && !(IsValid(s) && IsValid(Swapped(s, i)))
  {
    var t := Swapped(s, i);
    assert forall c | c in t :: c in s;
    if IsValid(s) && |s| >= 5 {
      var u, j := Rearranged(s), Landing(|s|, i);
      if i != 3 {
        SwapLands(s, i);
        SwapNeverBothValid(s, t, j);
      } else {
        var m, v := s[5..] + s[..3], Rearranged(t);
        EndsLand(s);
        RemainderOf(s);
        RemainderOf(t);
        if CharValue(s[4]) > CharValue(s[3]) {
          EndsDiffer(s[4], m, s[3], u, v);
        } else {
          EndsDiffer(s[3], m, s[4], v, u);
        }
      }
    }
  }

  // ---- Check digits ---------------------------------------------------------------------------

  function Digit(d: nat): (c: char)
    requires d < 10
    ensures IsDigit(c) && CharValue(c) == d
  {
    ('0' as int + d) as char
  }

  function TwoDigits(n: nat): string
    requires n < 100
  {
    [Digit(n / 10), Digit(n % 10)]
  }

  /** The pair the check accepts. */
  function CheckDigits(country: string, bban: string): (n: nat)
    requires AllAlnum(country) && AllAlnum(bban)
    ensures 2 <= n <= 98
  {
    98 - Residue(0, bban + country) * 100 % 97
  }

  lemma TwoDigitsResidue(r: nat, n: nat)
    requires r < 97 && n < 100
    ensures AllAlnum(TwoDigits(n)) && Residue(r, TwoDigits(n)) == (r * 100 + n) % 97
  {
    var tens, units := n / 10, n % 10;
    assert n == tens * 10 + units;
    PairResidue(r, Digit(tens), Digit(units));
    assert (r * 10 + tens) * 10 + units == r * 100 + n;
  }

  lemma TokenRemainder(country: string, bban: string, n: nat)
    requires |country| == 2 && AllAlnum(country) && AllAlnum(bban) && n < 100
    ensures var token := country + TwoDigits(n) + bban;
            AllAlnum(token) && AllAlnum(bban + country) && |token| == |bban| + 4 && token[..2] == country &&
            Mod97(token) == (Residue(0, bban + country) * 100 + n) % 97
  {
    TwoDigitsResidue(Residue(0, bban + country), n);
    var token := country + TwoDigits(n) + bban;
    assert token[..4] == country + TwoDigits(n) && token[4..] == bban;
    assert Rearranged(token) == (bban + country) + TwoDigits(n);
    RemainderOf(token);
    ResidueSplit(0, bban + country, TwoDigits(n));
  }

  /** For every known country and account part of the right length, the check accepts a pair of
      check digits exactly when it is congruent to one number between 02 and 98. */
  lemma CheckDigitsUnique(country: string, bban: string, n: nat)
    requires |country| == 2 && AllAlnum(country) && AllAlnum(bban) && n < 100
    requires IsoLength(country) != 0 && |bban| == IsoLength(country) - 4
    ensures var token := country + TwoDigits(n) + bban;
            AllAlnum(token) && (IsValid(token) <==> n % 97 == CheckDigits(country, bban) % 97)
    ensures 2 <= n <= 98 ==> (n % 97 == CheckDigits(country, bban) % 97 <==> n == CheckDigits(country, bban))
  {
    TokenRemainder(country, bban, n);
    var m := Residue(0, bban + country) * 100;
    ModStepSum(m, n);
    OneIsReached(m % 97, n);
  }

  // ---- Canonical form -------------------------------------------------------------------------

  /** Whitespace stripped, upper-cased. */
  function Canonical(raw: string): string { UpperText(RemoveSpace(raw)) }

  lemma CanonicalIdempotent(raw: string)
    ensures Canonical(Canonical(raw)) == Canonical(raw)
  {
    RemoveSpaceClean(raw);
    UpperClean(RemoveSpace(raw));
    RemoveSpaceClean(Canonical(raw));
    UpperClean(Canonical(raw));
  }

  /** The shape two letters, two digits, 1 to 30 letters or digits, then the check itself. */
  predicate Accepts(raw: string) {
    var iban := Canonical(raw);
    && 5 <= |iban| <= 34
    && IsLetter(iban[0]) && IsLetter(iban[1]) && IsDigit(iban[2]) && IsDigit(iban[3])
    && AllAlnum(iban)
    && IsValid(iban)
  }

  /** Character by character: whitespace goes, small letters become capitals. */
  lemma CanonicalMeans(s: string, t: string, c: char)
    ensures Canonical(s + t) == Canonical(s) + Canonical(t)
    ensures c in {' ', '\t', '\n', '\r'} ==> Canonical([c]) == ""
    ensures 'a' <= c <= 'z' ==> |Canonical([c])| == 1 && Canonical([c])[0] as int == c as int - 32
    ensures c !in {' ', '\t', '\n', '\r'} && !('a' <= c <= 'z') ==> Canonical([c]) == [c]
  {
    RemoveSpaceSplit(s, t);
    UpperSplit(RemoveSpace(s), RemoveSpace(t));
    assert [c][1..] == "" && RemoveSpace("") == "" && UpperText("") == "";
    assert RemoveSpace([c]) == if IsSpace(c) then "" else [c];
  }

  // ---- The check, from the registry -----------------------------------------------------------

  /** The registry of lengths. */
  ghost predicate Registered(country: string, n: nat) {
    match n
    case 15 => country == "NO"
    case 16 => country == "BE"
    case 18 => country in {"DK", "FI", "NL"}
    case 19 => country == "SI"
    case 20 => country in {"AT", "EE", "LT", "LU"}
    case 21 => country in {"CH", "HR", "LI", "LV"}
    case 22 => country in {"BG", "DE", "GB", "IE", "VA"}
    case 23 => country == "GI"
    case 24 => country in {"AD", "CZ", "ES", "RO", "SE", "SK"}
    case 25 => country == "PT"
    case 26 => country == "IS"
    case 27 => country in {"FR", "GR", "IT", "MC", "SM"}
    case 28 => country in {"CY", "HU", "PL"}
    case 31 => country == "MT"
    case _ => false
  }

  lemma LengthsMean(country: string, n: nat)
    requires n != 0
    ensures IsoLength(country) == n <==> Registered(country, n)
  {
  }

  /** A token passes when its country is registered, its length is exactly that country's, and the
      fold of the rearranged text ends on 1. */
  lemma ValidExactlyWhen(token: string)
    requires AllAlnum(token)
    ensures IsValid(token) <==>
            && |token| >= 4 && Registered(token[..2], |token|)
            && AllAlnum(token[4..] + token[..4]) && Residue(0, token[4..] + token[..4]) == 1
  {
    if |token| >= 2 { LengthsMean(token[..2], |token|); }
    if |token| >= 4 { RemainderOf(token); }
  }

  /** Two capitals, two digits, then up to thirty capitals or digits, and the check passes. */
  ghost predicate WellFormed(iban: string) {
    && 5 <= |iban| <= 34 && AllAlnum(iban)
    && 'A' <= iban[0] <= 'Z' && 'A' <= iban[1] <= 'Z' && '0' <= iban[2] <= '9' && '0' <= iban[3] <= '9'
    && Registered(iban[..2], |iban|) && Residue(0, iban[4..] + iban[..4]) == 1
  }

  lemma AcceptsMeans(iban: string)
    requires Canonical(iban) == iban
    ensures Accepts(iban) <==> WellFormed(iban)
  {
    if AllAlnum(iban) { ValidExactlyWhen(iban); }
  }
}
