/**
 * The payout value. The source parses the normalised text with `float(txt)`
 * (main.py:167), compares it with the baseline with `!=` (main.py:172) and
 * stores it as `f"{val:.2f}"` (main.py:176). The model reads the
 * decimal-literal part of Python's float syntax (an optional sign, digits, an
 * optional fraction) into an exact decimal instead of an IEEE double.
 *
 * A value keeps its sign apart from its magnitude, as a float does, so that
 * `-0` and `-0.001` format with a minus sign while `-0 == 0` still holds.
 */
module Decimal {
  import opened Wrappers
  import opened Digits

  /** (-1 if negative) * digits / 10^scale. */
  datatype Decimal = Decimal(negative: bool, digits: nat, scale: nat)

  /** No trailing fractional zero: every decimal number has one canonical magnitude. */
  predicate Canonical(d: Decimal) {
    d.scale == 0 || d.digits % 10 != 0
  }

  function Signed(d: Decimal): int {
    if d.negative then -(d.digits as int) else d.digits as int
  }

  /** Equality of the numbers denoted, by cross-multiplication: the reference for `==` on floats. */
  predicate NumEq(a: Decimal, b: Decimal) {
    Signed(a) * Pow10(b.scale) == Signed(b) * Pow10(a.scale)
  }

  /** Python's `==` on two parsed values, decided on their canonical forms. */
  predicate SameNumber(a: Decimal, b: Decimal) {
    a.digits == b.digits && a.scale == b.scale && (a.negative == b.negative || a.digits == 0)
  }

  /** Trailing fractional zeros removed. */
  function Canonicalize(negative: bool, digits: nat, scale: nat): (d: Decimal)
    ensures Canonical(d) && d.negative == negative
  {
    if scale > 0 && digits % 10 == 0 then Canonicalize(negative, digits / 10, scale - 1)
    else Decimal(negative, digits, scale)
  }

  /** `s.find(c)`, with `|s|` for "not found". */
  function IndexOf(s: string, c: char): (i: nat)
    ensures i <= |s|
  {
    if s == [] then 0
    else if s[0] == c then 0
    else 1 + IndexOf(s[1..], c)
  }

  /** IndexOf finds the first `c`, and `|s|` exactly when there is none. */
  lemma {:induction false} IndexOfFirst(s: string, c: char)
    ensures var i := IndexOf(s, c);
      (i < |s| ==> s[i] == c) && forall k :: 0 <= k < i ==> s[k] != c
  {
    if s != [] && s[0] != c {
      IndexOfFirst(s[1..], c);
      var i := IndexOf(s, c);
      forall k | 0 <= k < i ensures s[k] != c {
        if k > 0 { assert s[k] == s[1..][k - 1]; }
      }
    }
  }

  /** An optional leading sign, and the rest. */
  function SplitSign(txt: string): (bool, string) {
    if |txt| > 0 && (txt[0] == '+' || txt[0] == '-') then (txt[0] == '-', txt[1..]) else (false, txt)
  }

  /**
   * `digits [. [digits]]` or `. digits`, at least one digit in all, read as the
   * integer of all its digits and the number of digits after the point.
   */
  function ParseUnsigned(body: string): Option<(nat, nat)> {
    var dot := IndexOf(body, '.');
    var whole := body[..dot];
    var frac := if dot < |body| then body[dot + 1..] else [];
    if AllDigits(whole) && AllDigits(frac) && |whole| + |frac| > 0 then
      AllDigitsConcat(whole, frac);
      Some((Value(whole + frac), |frac|))
    else None
  }

  /** `float(txt)` restricted to decimal literals: `[+|-] digits [. [digits]]` or `[+|-] . digits`. */
  function Parse(txt: string): (r: Option<Decimal>)
    ensures r.Some? ==> Canonical(r.value)
  {
    var (negative, body) := SplitSign(txt);
    match ParseUnsigned(body)
    case None => None
    case Some((n, scale)) => Some(Canonicalize(negative, n, scale))
  }

  /** `h * u` is a nearest multiple of `u` to `n`, an even one on a tie. */
  predicate RoundsTo(n: nat, u: nat, h: nat) {
    var e := 2 * (n - h * u);
    -(u as int) <= e <= u && (e == u || e == -(u as int) ==> h % 2 == 0)
  }

  lemma DivMod(n: nat, u: nat)
    requires u >= 1
    ensures n == (n / u) * u + n % u && n % u < u
  {
  }

  lemma MulSucc(q: nat, u: nat)
    ensures (q + 1) * u == q * u + u
  {
  }

  /** `n / u` rounded half to even. */
  function RoundHalfEven(n: nat, u: nat): (h: nat)
    requires u >= 2 && u % 2 == 0
    ensures RoundsTo(n, u, h)
  {
    var q, rem := n / u, n % u;
    DivMod(n, u);
    MulSucc(q, u);
    var up := 2 * rem > u || (2 * rem == u && q % 2 == 1);
    var h := if up then q + 1 else q;
    assert h * u == if up then q * u + u else q * u;
    h
  }

  /** The magnitude in hundredths: exact up to two decimals, rounded half to even beyond. */
  function Hundredths(d: Decimal): (h: nat)
    ensures d.scale <= 2 ==> h == d.digits * Pow10(2 - d.scale)
    ensures d.scale > 2 ==> RoundsTo(d.digits, Pow10(d.scale - 2), h)
  {
    if d.scale <= 2 then d.digits * Pow10(2 - d.scale)
    else RoundHalfEven(d.digits, Pow10(d.scale - 2))
  }

  /** `f"{val:.2f}"`. */
  function Format2(d: Decimal): (r: string)
    ensures |r| >= 4 && r[|r| - 3] == '.' && IsDigit(r[|r| - 2]) && IsDigit(r[|r| - 1])
    ensures (r[0] == '-') == d.negative
  {
    var h := Hundredths(d);
    (if d.negative then "-" else "") + NatString(h / 100) + "." + Pad(h % 100, 2)
  }

  lemma {:induction false} PowSplit(m: nat, n: nat)
    ensures Pow10(m + n) == Pow10(m) * Pow10(n)
  {
    if m > 0 {
      PowSplit(m - 1, n);
      MulAssoc(10, Pow10(m - 1), Pow10(n));
    }
  }

  /** Shifting by a positive power of ten gives a multiple of ten, which is never canonical at a positive scale. */
  lemma TimesPowNotCanonical(k: nat, j: nat)
    requires j >= 1
    ensures (k * Pow10(j)) % 10 == 0
  {
    assert Pow10(j) == 10 * Pow10(j - 1);
    assert k * Pow10(j) == 10 * (k * Pow10(j - 1));
  }

  lemma MulMonotone(a: nat, b: nat, c: nat)
    requires a < b && c >= 1
    ensures a * c < b * c
  {
    assert b * c == a * c + (b - a) * c;
  }

  lemma MulCancel(a: nat, b: nat, c: nat)
    requires c >= 1 && a * c == b * c
    ensures a == b
  {
    if a < b {
      MulMonotone(a, b, c);
    } else if a > b {
      MulMonotone(b, a, c);
    }
  }

  lemma SignedTimes(d: Decimal, p: nat)
    ensures Signed(d) * p == if d.negative then -(d.digits * p) else d.digits * p
  {
  }

  lemma MulPositive(a: nat, b: nat)
    ensures a > 0 && b > 0 ==> a * b > 0
  {
    if a > 0 && b > 0 {
      MulMonotone(0, a, b);
    }
  }

  lemma MulAssoc(a: nat, b: nat, c: nat)
    ensures a * (b * c) == (a * b) * c
  {
  }

  /** If `a * 10^k` read at scale `s` equals `b` read at scale `s + k`, then `b = a * 10^k`. */
  lemma ShiftedEqual(a: nat, b: nat, s: nat, k: nat)
    requires a * Pow10(s + k) == b * Pow10(s)
    ensures b == a * Pow10(k)
  {
    PowSplit(k, s);
    MulAssoc(a, Pow10(k), Pow10(s));
    MulCancel(a * Pow10(k), b, Pow10(s));
  }

  /** Canonical magnitudes denoting the same number are the same pair. */
  lemma MagnitudesEqual(a: nat, sa: nat, b: nat, sb: nat)
    requires sa == 0 || a % 10 != 0
    requires sb == 0 || b % 10 != 0
    requires a * Pow10(sb) == b * Pow10(sa)
    ensures a == b && sa == sb
  {
    if sa < sb {
      ShiftedEqual(a, b, sa, sb - sa);
      TimesPowNotCanonical(a, sb - sa);
      assert false;
    } else if sb < sa {
      ShiftedEqual(b, a, sb, sa - sb);
      TimesPowNotCanonical(b, sa - sb);
      assert false;
    } else {
      MulCancel(a, b, Pow10(sa));
    }
  }

  /**
   * On canonical values, SameNumber is exactly equality of the numbers denoted —
   * in both directions — so the model's `val != LAST` is Python's.
   */
  lemma SameNumberIsNumEq(a: Decimal, b: Decimal)
    requires Canonical(a) && Canonical(b)
    ensures SameNumber(a, b) <==> NumEq(a, b)
  {
    var pa, pb := Pow10(a.scale), Pow10(b.scale);
    SignedTimes(a, pb);
    SignedTimes(b, pa);
    MulPositive(a.digits, pb);
    MulPositive(b.digits, pa);
    if NumEq(a, b) {
      assert a.digits * pb == b.digits * pa;
      MagnitudesEqual(a.digits, a.scale, b.digits, b.scale);
    }
  }

  lemma SameNumberEquivalence(a: Decimal, b: Decimal, c: Decimal)
    ensures SameNumber(a, a)
    ensures SameNumber(a, b) ==> SameNumber(b, a)
    ensures SameNumber(a, b) && SameNumber(b, c) ==> SameNumber(a, c)
  {
  }

  lemma {:induction false} CanonicalizeScaled(negative: bool, digits: nat, scale: nat, j: nat)
    requires Canonical(Decimal(negative, digits, scale))
    ensures Canonicalize(negative, digits * Pow10(j), scale + j) == Decimal(negative, digits, scale)
  {
    if j == 0 {
      if scale > 0 {
        assert digits % 10 != 0;
      }
    } else {
      var n := digits * Pow10(j);
      TimesPowNotCanonical(digits, j);
      assert n == 10 * (digits * Pow10(j - 1));
      assert n / 10 == digits * Pow10(j - 1);
      CanonicalizeScaled(negative, digits, scale, j - 1);
    }
  }

  /** `int(n / 100)` and the two digits after it read back as `n`. */
  lemma SplitHundredths(n: nat)
    ensures AllDigits(NatString(n / 100) + Pad(n % 100, 2))
    ensures Value(NatString(n / 100) + Pad(n % 100, 2)) == n
  {
    ValueConcat(NatString(n / 100), Pad(n % 100, 2));
    assert Pow10(2) == 100;
  }

  /** A point between two digit strings is read as the number they spell together. */
  lemma ParseUnsignedOf(ip: string, fp: string)
    requires AllDigits(ip) && AllDigits(fp) && |ip| + |fp| > 0
    ensures AllDigits(ip + fp)
    ensures ParseUnsigned(ip + "." + fp) == Some((Value(ip + fp), |fp|))
  {
    var body := ip + "." + fp;
    var dot := IndexOf(body, '.');
    IndexOfFirst(body, '.');
    assert dot == |ip| by {
      assert body[|ip|] == '.';
      assert forall k :: 0 <= k < |ip| ==> body[k] == ip[k];
    }
    assert body[..dot] == ip;
    assert body[dot + 1..] == fp;
  }

  /** `float(f"{v:.2f}")` reads back the rounded hundredths, with the sign. */
  lemma ParseFormat2Hundredths(d: Decimal)
    ensures Parse(Format2(d)) == Some(Canonicalize(d.negative, Hundredths(d), 2))
  {
    var h := Hundredths(d);
    var ip, fp := NatString(h / 100), Pad(h % 100, 2);
    var body := ip + "." + fp;
    var txt := (if d.negative then "-" else "") + body;
    assert Format2(d) == txt;
    assert body[0] == ip[0] && IsDigit(ip[0]);
    if d.negative {
      assert txt == "-" + body && txt[0] == '-' && txt[1..] == body;
    } else {
      assert txt == body && !(txt[0] == '+' || txt[0] == '-');
    }
    assert SplitSign(txt) == (d.negative, body);
    ParseUnsignedOf(ip, fp);
    SplitHundredths(h);
    assert ParseUnsigned(body) == Some((h, 2));
  }

  /**
   * The stored multiplier is the value: `float(f"{v:.2f}") == v` whenever the
   * value has at most two decimals, which is what the page displays.
   */
  lemma ParseFormat2(d: Decimal)
    requires Canonical(d) && d.scale <= 2
    ensures Parse(Format2(d)) == Some(d)
  {
    ParseFormat2Hundredths(d);
    CanonicalizeScaled(d.negative, d.digits, d.scale, 2 - d.scale);
  }

  lemma ParseOnePointFifty()
    ensures Parse("1.50") == Some(Decimal(false, 15, 1))
  {
    assert IndexOf("1.50", '.') == 1;
    assert "1.50"[..1] == "1" && "1.50"[2..] == "50";
    assert "1" + "50" == "150";
    assert Value("150") == 150 by { assert "150"[..2] == "15" && "15"[..1] == "1" && "1"[..0] == ""; }
    assert Canonicalize(false, 150, 2) == Decimal(false, 15, 1);
  }

  lemma ParseTwoPointZero()
    ensures Parse("2.00") == Some(Decimal(false, 2, 0))
  {
    assert IndexOf("2.00", '.') == 1;
    assert "2.00"[..1] == "2" && "2.00"[2..] == "00";
    assert "2" + "00" == "200";
    assert Value("200") == 200 by { assert "200"[..2] == "20" && "20"[..1] == "2" && "2"[..0] == ""; }
    assert Canonicalize(false, 200, 2) == Decimal(false, 2, 0);
  }

  lemma ParseRejects()
    ensures Parse("abc") == None && Parse("") == None && Parse(".") == None
  {
    assert !IsDigit('a');
    assert IndexOf(".", '.') == 0;
  }

  lemma Format2OnePointFifty()
    ensures Format2(Decimal(false, 15, 1)) == "1.50"
  {
    assert Pow10(1) == 10;
    assert Hundredths(Decimal(false, 15, 1)) == 150;
    assert 150 / 100 == 1 && 150 % 100 == 50;
    assert NatString(1) == "1";
    assert Pad(50, 2) == "50" by { assert Pad(5, 1) == "5"; }
    assert "" + "1" + "." + "50" == "1.50";
  }

  lemma Format2TwoPointZero()
    ensures Format2(Decimal(false, 2, 0)) == "2.00"
  {
    assert Pow10(2) == 100;
    assert Hundredths(Decimal(false, 2, 0)) == 200;
    assert NatString(2) == "2";
    assert Pad(0, 2) == "00" by { assert Pad(0, 1) == "0"; }
  }

  /** A negative value that rounds to zero keeps its sign, as Python's formatting does. */
  lemma Format2NegativeZero()
    ensures Format2(Decimal(true, 1, 3)) == "-0.00"
  {
    assert Pow10(1) == 10;
    var h := RoundHalfEven(1, 10);
    assert 1 / 10 == 0 && 1 % 10 == 1;
    assert h == 0;
    assert Hundredths(Decimal(true, 1, 3)) == 0;
    assert NatString(0) == "0";
    assert Pad(0, 2) == "00" by { assert Pad(0, 1) == "0"; }
  }
}
