/**
 * Strings as the bot's Python code handles them: the whitespace test behind
 * `str.strip()` with no argument, stripping itself, and counting a character.
 */
module Text {

  /** Python's `str.isspace()` for one character: the characters `str.strip()` removes. */
  predicate IsSpace(c: char) {
    || ('\t' <= c <= '\r')                    // tab, line feed, vertical tab, form feed, carriage return
    || ('\U{1C}' <= c <= '\U{1F}')            // file, group, record and unit separators
    || c == ' '
    || c == '\U{85}' || c == '\U{A0}' || c == '\U{1680}'
    || ('\U{2000}' <= c <= '\U{200A}')
    || c == '\U{2028}' || c == '\U{2029}' || c == '\U{202F}' || c == '\U{205F}' || c == '\U{3000}'
  }

  predicate AllSpace(s: string) {
    forall i :: 0 <= i < |s| ==> IsSpace(s[i])
  }

  /** Neither the first nor the last character is whitespace. */
  predicate Trimmed(s: string) {
    s == [] || (!IsSpace(s[0]) && !IsSpace(s[|s| - 1]))
  }

  /** `s.lstrip()`: the suffix of `s` left after dropping its leading whitespace. */
  function TrimStart(s: string): (r: string)
    ensures |r| <= |s| && r == s[|s| - |r|..]
    ensures AllSpace(s[..|s| - |r|])
    ensures r == [] || !IsSpace(r[0])
  {
    if s != [] && IsSpace(s[0]) then
      var r := TrimStart(s[1..]);
      assert s[..|s| - |r|] == [s[0]] + s[1..][..|s| - 1 - |r|];
      r
    else
      s
  }

  /** `s.rstrip()`: the prefix of `s` left after dropping its trailing whitespace. */
  function TrimEnd(s: string): (r: string)
    ensures |r| <= |s| && r == s[..|r|]
    ensures AllSpace(s[|r|..])
    ensures r == [] || !IsSpace(r[|r| - 1])
  {
    if s != [] && IsSpace(s[|s| - 1]) then
      var r := TrimEnd(s[..|s| - 1]);
      assert s[|r|..] == s[..|s| - 1][|r|..] + [s[|s| - 1]];
      r
    else
      s
  }

  /**
   * `s.strip()`: `TrimStart` then `TrimEnd`. The result has no whitespace at
   * either end; `StripRecovers` shows it is the one such slice of `s` whose
   * surroundings are all whitespace.
   */
  function Strip(s: string): (r: string)
    ensures Trimmed(r)
    ensures |r| <= |s|
    ensures AllSpace(s) ==> r == []
  {
    var t := TrimStart(s);
    var r := TrimEnd(t);
    r
  }

  /** Leading whitespace in front of a string that starts with a non-space is exactly what `lstrip` removes. */
  lemma {:induction false} TrimStartSkips(a: string, t: string)
    requires AllSpace(a)
    requires t == [] || !IsSpace(t[0])
    ensures TrimStart(a + t) == t
    decreases |a|
  {
    if a == [] {
      assert a + t == t;
    } else {
      assert (a + t)[0] == a[0];
      assert (a + t)[1..] == a[1..] + t;
      TrimStartSkips(a[1..], t);
    }
  }

  /** Trailing whitespace behind a string that ends with a non-space is exactly what `rstrip` removes. */
  lemma {:induction false} TrimEndSkips(t: string, b: string)
    requires AllSpace(b)
    requires t == [] || !IsSpace(t[|t| - 1])
    ensures TrimEnd(t + b) == t
    decreases |b|
  {
    if b == [] {
      assert t + b == t;
    } else {
      var b' := b[..|b| - 1];
      assert (t + b)[|t + b| - 1] == b[|b| - 1];
      assert (t + b)[..|t + b| - 1] == t + b';
      TrimEndSkips(t, b');
    }
  }

  /**
   * `strip` is determined by its specification: whatever whitespace surrounds a
   * trimmed string, stripping recovers exactly that string.
   */
  lemma {:induction false} StripRecovers(a: string, t: string, b: string)
    requires AllSpace(a) && AllSpace(b) && Trimmed(t)
    ensures Strip(a + t + b) == t
  {
    if t == [] {
      assert a + t + b == (a + b) + [];
      assert AllSpace(a + b) by {
        forall i | 0 <= i < |a + b| ensures IsSpace((a + b)[i]) {
          if i < |a| { assert (a + b)[i] == a[i]; } else { assert (a + b)[i] == b[i - |a|]; }
        }
      }
      TrimStartSkips(a + b, []);
    } else {
      assert a + t + b == a + (t + b);
      assert (t + b)[0] == t[0];
      TrimStartSkips(a, t + b);
      TrimEndSkips(t, b);
    }
  }

  /** Stripping a stripped string changes nothing. */
  lemma StripIdempotent(s: string)
    ensures Strip(Strip(s)) == Strip(s)
  {
    var r := Strip(s);
    assert [] + r + [] == r;
    StripRecovers([], r, []);
  }

  /** The number of times `c` occurs in `s`. */
  function Occurrences(c: char, s: string): (n: nat)
    ensures n <= |s|
  {
    if s == [] then 0
    else (if s[0] == c then 1 else 0) + Occurrences(c, s[1..])
  }

  /** A character that does not occur in `s` is counted zero times. */
  lemma {:induction false} OccurrencesAbsent(c: char, s: string)
    requires c !in s
    ensures Occurrences(c, s) == 0
    decreases |s|
  {
    if s != [] {
      OccurrencesAbsent(c, s[1..]);
    }
  }

  lemma {:induction false} OccurrencesAppend(c: char, a: string, b: string)
    ensures Occurrences(c, a + b) == Occurrences(c, a) + Occurrences(c, b)
    decreases |a|
  {
    if a == [] {
      assert a + b == b;
    } else {
      assert (a + b)[0] == a[0];
      assert (a + b)[1..] == a[1..] + b;
      OccurrencesAppend(c, a[1..], b);
    }
  }

  /** Python's `sep.join(parts)`. */
  function Join(sep: string, parts: seq<string>): string
  {
    if parts == [] then ""
    else if |parts| == 1 then parts[0]
    else parts[0] + sep + Join(sep, parts[1..])
  }

  /** Where `parts[i]` starts in `Join(sep, parts)`. */
  function JoinOffset(sep: string, parts: seq<string>, i: nat): nat
    requires i < |parts|
  {
    if i == 0 then 0 else |parts[0]| + |sep| + JoinOffset(sep, parts[1..], i - 1)
  }

  /** The next part starts right after this part and one separator. */
  lemma {:induction false} JoinOffsetNext(sep: string, parts: seq<string>, i: nat)
    requires i + 1 < |parts|
    ensures JoinOffset(sep, parts, i + 1) == JoinOffset(sep, parts, i) + |parts[i]| + |sep|
  {
    if i > 0 {
      JoinOffsetNext(sep, parts[1..], i - 1);
      assert parts[1..][i - 1] == parts[i];
    }
  }

  /** The parts appear in the joined string in order, each at its offset. */
  lemma {:induction false} JoinPartAt(sep: string, parts: seq<string>, i: nat)
    requires i < |parts|
    ensures JoinOffset(sep, parts, i) + |parts[i]| <= |Join(sep, parts)|
    ensures Join(sep, parts)[JoinOffset(sep, parts, i)..JoinOffset(sep, parts, i) + |parts[i]|] == parts[i]
  {
    if |parts| == 1 {
    } else if i == 0 {
      assert Join(sep, parts) == parts[0] + (sep + Join(sep, parts[1..]));
    } else {
      var head := parts[0] + sep;
      var tail := Join(sep, parts[1..]);
      assert Join(sep, parts) == head + tail;
      JoinPartAt(sep, parts[1..], i - 1);
      assert parts[1..][i - 1] == parts[i];
      var k := JoinOffset(sep, parts[1..], i - 1);
      assert (head + tail)[|head| + k..|head| + k + |parts[i]|] == tail[k..k + |parts[i]|];
    }
  }
}
