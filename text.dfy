/**
 * Normalisation of the payout text read from the page (main.py:160):
 * `elem.text.replace("x", "").strip()` — every lower-case `x` anywhere in the
 * string is deleted, then leading and trailing whitespace is trimmed.
 */
module Text {

  /** The characters Python's `str.strip()` removes when given no argument (`str.isspace`). */
  predicate IsSpace(c: char) {
    ('\t' <= c <= '\r') || ('\U{1C}' <= c <= '\U{1F}') || c == ' '
    || c == '\U{85}' || c == '\U{A0}' || c == '\U{1680}'
    || ('\U{2000}' <= c <= '\U{200A}') || c == '\U{2028}' || c == '\U{2029}'
    || c == '\U{202F}' || c == '\U{205F}' || c == '\U{3000}'
  }

  predicate AllSpace(s: string) {
    forall i :: 0 <= i < |s| ==> IsSpace(s[i])
  }

  /** Neither end of `s` is whitespace (vacuously true of the empty string). */
  predicate Trimmed(s: string) {
    s == [] || (!IsSpace(s[0]) && !IsSpace(s[|s| - 1]))
  }

  /** `s.replace("x", "")`. */
  function RemoveX(s: string): (r: string)
    ensures 'x' !in r
  {
    if s == [] then []
    else (if s[0] == 'x' then [] else [s[0]]) + RemoveX(s[1..])
  }

  function DropLeading(s: string): (r: string)
    ensures r == [] || !IsSpace(r[0])
  {
    if s != [] && IsSpace(s[0]) then DropLeading(s[1..]) else s
  }

  function DropTrailing(s: string): (r: string)
    ensures r == [] || !IsSpace(r[|r| - 1])
  {
    if s != [] && IsSpace(s[|s| - 1]) then DropTrailing(s[..|s| - 1]) else s
  }

  /** `s.strip()`. */
  function Strip(s: string): string {
    DropTrailing(DropLeading(s))
  }

  /** The text the poll loop works on: `raw.replace("x", "").strip()`. */
  function Normalize(raw: string): string {
    Strip(RemoveX(raw))
  }

  /** Trimming the end keeps a non-blank first character where it is. */
  lemma {:induction false} DropTrailingKeepsFirst(s: string)
    requires s != [] && !IsSpace(s[0])
    ensures DropTrailing(s) != [] && DropTrailing(s)[0] == s[0]
    decreases |s|
  {
    if IsSpace(s[|s| - 1]) {
      var s' := s[..|s| - 1];
      assert s' != [] && s'[0] == s[0];
      DropTrailingKeepsFirst(s');
    }
  }

  /** `strip()` leaves whitespace at neither end. */
  lemma StripTrimmed(s: string)
    ensures Trimmed(Strip(s))
  {
    var d := DropLeading(s);
    if d != [] {
      DropTrailingKeepsFirst(d);
    }
  }

  /** The normalised text holds no `x` and is trimmed. */
  lemma NormalizeShape(raw: string)
    ensures 'x' !in Normalize(raw) && Trimmed(Normalize(raw))
  {
    StripTrimmed(RemoveX(raw));
    var r := RemoveX(raw);
    StripShape(r);
  }

  /** Deletion removes every `x` and keeps every other character: the character counts agree elsewhere. */
  lemma {:induction false} RemoveXCounts(s: string)
    ensures multiset(RemoveX(s)) == multiset(s)['x' := 0]
  {
    if s != [] {
      assert s == [s[0]] + s[1..];
      RemoveXCounts(s[1..]);
    }
  }

  /** Deletion works character by character: it distributes over concatenation. */
  lemma {:induction false} RemoveXConcat(a: string, b: string)
    ensures RemoveX(a + b) == RemoveX(a) + RemoveX(b)
  {
    if a == [] {
      assert a + b == b;
    } else {
      assert (a + b)[1..] == a[1..] + b;
      RemoveXConcat(a[1..], b);
    }
  }

  /** Deletion leaves a string without `x` exactly as it is, and only such a string. */
  lemma {:induction false} RemoveXIdentity(s: string)
    ensures RemoveX(s) == s <==> 'x' !in s
  {
    if s != [] {
      assert s == [s[0]] + s[1..];
      RemoveXIdentity(s[1..]);
      if s[0] == 'x' {
        assert |RemoveX(s)| <= |s[1..]| by { RemoveXShorter(s[1..]); }
      }
    }
  }

  lemma {:induction false} RemoveXShorter(s: string)
    ensures |RemoveX(s)| <= |s|
  {
    if s != [] {
      RemoveXShorter(s[1..]);
    }
  }

  lemma {:induction false} DropLeadingOf(a: string, t: string)
    requires AllSpace(a)
    requires t == [] || !IsSpace(t[0])
    ensures DropLeading(a + t) == t
  {
    if a != [] {
      assert (a + t)[1..] == a[1..] + t;
      DropLeadingOf(a[1..], t);
    }
  }

  lemma {:induction false} DropTrailingOf(t: string, b: string)
    requires AllSpace(b)
    requires t == [] || !IsSpace(t[|t| - 1])
    ensures DropTrailing(t + b) == t
  {
    if b != [] {
      assert (t + b)[..|t + b| - 1] == t + b[..|b| - 1];
      DropTrailingOf(t, b[..|b| - 1]);
    } else {
      assert t + b == t;
    }
  }

  lemma {:induction false} DropLeadingShape(s: string)
    ensures exists a :: AllSpace(a) && s == a + DropLeading(s)
  {
    if s != [] && IsSpace(s[0]) {
      DropLeadingShape(s[1..]);
      var a :| AllSpace(a) && s[1..] == a + DropLeading(s[1..]);
      assert s == [s[0]] + a + DropLeading(s);
      assert AllSpace([s[0]] + a);
    } else {
      var e: string := [];
      assert AllSpace(e) && s == e + DropLeading(s);
    }
  }

  lemma {:induction false} DropTrailingShape(s: string)
    ensures exists b :: AllSpace(b) && s == DropTrailing(s) + b
  {
    if s != [] && IsSpace(s[|s| - 1]) {
      var s' := s[..|s| - 1];
      DropTrailingShape(s');
      var b :| AllSpace(b) && s' == DropTrailing(s') + b;
      var b' := b + [s[|s| - 1]];
      assert DropTrailing(s) == DropTrailing(s');
      assert s == s' + [s[|s| - 1]];
      assert s == DropTrailing(s) + b';
      assert AllSpace(b') by {
        forall i | 0 <= i < |b'| ensures IsSpace(b'[i]) {
          if i < |b| { assert b'[i] == b[i]; }
        }
      }
    } else {
      var e: string := [];
      assert AllSpace(e) && s == DropTrailing(s) + e;
    }
  }

  /** `strip()` cuts `s` into whitespace, a trimmed core, and whitespace. */
  lemma StripShape(s: string)
    ensures exists a, b :: AllSpace(a) && AllSpace(b) && s == a + Strip(s) + b
  {
    DropLeadingShape(s);
    var a :| AllSpace(a) && s == a + DropLeading(s);
    DropTrailingShape(DropLeading(s));
    var b :| AllSpace(b) && DropLeading(s) == Strip(s) + b;
    assert s == a + Strip(s) + b;
  }

  /** The partner of StripShape: that cut is unique, so `strip()` returns exactly its core. */
  lemma StripOf(a: string, t: string, b: string)
    requires AllSpace(a) && AllSpace(b) && Trimmed(t)
    ensures Strip(a + t + b) == t
  {
    if t == [] {
      assert a + t + b == (a + b) + [];
      assert AllSpace(a + b);
      DropLeadingOf(a + b, []);
    } else {
      assert a + t + b == a + (t + b);
      DropLeadingOf(a, t + b);
      DropTrailingOf(t, b);
    }
  }

  /** Normalising twice is normalising once. */
  lemma NormalizeIdempotent(raw: string)
    ensures Normalize(Normalize(raw)) == Normalize(raw)
  {
    var txt := Normalize(raw);
    NormalizeShape(raw);
    RemoveXIdentity(txt);
    assert txt == [] + txt + [];
    StripOf([], txt, []);
  }
}
