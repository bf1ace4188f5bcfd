/** ASCII string primitives with the behaviour of Python's `str.lower`, `str.upper`,
    `str.strip`, `str.isspace`, `str.split()`, `str.replace` and `str.join`. */
module Strings {

  /** Python's `str.isspace` restricted to ASCII: space, \t \n \v \f \r and the four
      separators U+001C..U+001F. */
  predicate IsSpace(c: char) {
    c == ' ' || (9 <= c as int <= 13) || (28 <= c as int <= 31)
  }

  predicate HasSpace(s: string) {
    exists i :: 0 <= i < |s| && IsSpace(s[i])
  }

  function LowerChar(c: char): (r: char)
    ensures IsSpace(r) <==> IsSpace(c)
    ensures !('A' <= r <= 'Z')
    ensures !('A' <= c <= 'Z') ==> r == c
  {
    if 'A' <= c <= 'Z' then (c as int + 32) as char else c
  }

  function UpperChar(c: char): (r: char)
    ensures IsSpace(r) <==> IsSpace(c)
    ensures !('a' <= r <= 'z')
    ensures !('a' <= c <= 'z') ==> r == c
  {
    if 'a' <= c <= 'z' then (c as int - 32) as char else c
  }

  function Lower(s: string): (r: string)
    ensures |r| == |s|
    ensures forall i :: 0 <= i < |s| ==> r[i] == LowerChar(s[i])
  {
    seq(|s|, i requires 0 <= i < |s| => LowerChar(s[i]))
  }

  function Upper(s: string): (r: string)
    ensures |r| == |s|
    ensures forall i :: 0 <= i < |s| ==> r[i] == UpperChar(s[i])
  {
    seq(|s|, i requires 0 <= i < |s| => UpperChar(s[i]))
  }

  /** Drops leading whitespace. */
  function LStrip(s: string): (r: string)
    ensures |r| <= |s| && r == s[|s| - |r|..]
    ensures r == [] || !IsSpace(r[0])
    ensures forall i :: 0 <= i < |s| - |r| ==> IsSpace(s[i])
  {
    if |s| > 0 && IsSpace(s[0]) then LStrip(s[1..]) else s
  }

  /** Drops trailing whitespace. */
  function RStrip(s: string): (r: string)
    ensures |r| <= |s| && r == s[..|r|]
    ensures r == [] || !IsSpace(r[|r| - 1])
    ensures forall i :: |r| <= i < |s| ==> IsSpace(s[i])
  {
    if |s| > 0 && IsSpace(s[|s| - 1]) then RStrip(s[..|s| - 1]) else s
  }

  /** Python's `s.strip()` (no argument). */
  function Strip(s: string): (r: string)
    ensures |r| <= |s|
    ensures r == [] || (!IsSpace(r[0]) && !IsSpace(r[|r| - 1]))
    ensures exists i, j ::
      (0 <= i <= j <= |s| && r == s[i..j] &&
       (forall k :: 0 <= k < i ==> IsSpace(s[k])) && (forall k :: j <= k < |s| ==> IsSpace(s[k])))
  {
    StripSlice(s);
    RStrip(LStrip(s))
  }

  /** The witnesses for Strip's slice clause: the lengths LStrip and RStrip cut off. */
  lemma StripSlice(s: string)
    ensures var t := LStrip(s); var i := |s| - |t|; var j := i + |RStrip(t)|;
      0 <= i <= j <= |s| && RStrip(t) == s[i..j] &&
      (forall k :: 0 <= k < i ==> IsSpace(s[k])) && (forall k :: j <= k < |s| ==> IsSpace(s[k]))
  {
    var t := LStrip(s);
    var r := RStrip(t);
    var i := |s| - |t|;
    var j := i + |r|;
    assert t == s[i..];
    assert r == t[..|r|];
    forall k | j <= k < |s| ensures IsSpace(s[k]) {
      assert s[k] == t[k - i];
    }
  }

  /** Strip keeps the inner part, so a stripped value contains a space only
      strictly inside it. */
  predicate IsStripped(s: string) {
    s == [] || (!IsSpace(s[0]) && !IsSpace(s[|s| - 1]))
  }

  lemma StripOfStripped(s: string)
    requires IsStripped(s)
    ensures Strip(s) == s
  {
  }

  lemma StripIdempotent(s: string)
    ensures Strip(Strip(s)) == Strip(s)
  {
    StripOfStripped(Strip(s));
  }

  /** Every char-wise map that keeps whitespace and non-whitespace apart commutes with Strip. */
  lemma {:induction false} LStripLower(s: string)
    ensures LStrip(Lower(s)) == Lower(LStrip(s))
  {
    if |s| > 0 && IsSpace(s[0]) {
      assert Lower(s)[1..] == Lower(s[1..]);
      LStripLower(s[1..]);
    }
  }

  lemma {:induction false} RStripLower(s: string)
    ensures RStrip(Lower(s)) == Lower(RStrip(s))
  {
    if |s| > 0 && IsSpace(s[|s| - 1]) {
      assert Lower(s)[..|s| - 1] == Lower(s[..|s| - 1]);
      RStripLower(s[..|s| - 1]);
    }
  }

  lemma {:induction false} LStripUpper(s: string)
    ensures LStrip(Upper(s)) == Upper(LStrip(s))
  {
    if |s| > 0 && IsSpace(s[0]) {
      assert Upper(s)[1..] == Upper(s[1..]);
      LStripUpper(s[1..]);
    }
  }

  lemma {:induction false} RStripUpper(s: string)
    ensures RStrip(Upper(s)) == Upper(RStrip(s))
  {
    if |s| > 0 && IsSpace(s[|s| - 1]) {
      assert Upper(s)[..|s| - 1] == Upper(s[..|s| - 1]);
      RStripUpper(s[..|s| - 1]);
    }
  }

  lemma StripLower(s: string)
    ensures Strip(Lower(s)) == Lower(Strip(s))
  {
    LStripLower(s);
    RStripLower(LStrip(s));
  }

  lemma StripUpper(s: string)
    ensures Strip(Upper(s)) == Upper(Strip(s))
  {
    LStripUpper(s);
    RStripUpper(LStrip(s));
  }

  lemma LowerIdempotent(s: string)
    ensures Lower(Lower(s)) == Lower(s)
  {
  }

  /** Python's `sep.join(parts)`. */
  function Join(sep: string, parts: seq<string>): (r: string)
    ensures parts == [] ==> r == []
    ensures |parts| == 1 ==> r == parts[0]
  {
    if parts == [] then []
    else if |parts| == 1 then parts[0]
    else parts[0] + sep + Join(sep, parts[1..])
  }

  lemma JoinAppend(sep: string, parts: seq<string>, last: string)
    requires parts != []
    ensures Join(sep, parts + [last]) == Join(sep, parts) + sep + last
  {
    if |parts| > 1 {
      assert (parts + [last])[1..] == parts[1..] + [last];
      JoinAppend(sep, parts[1..], last);
    }
  }

  /** Index of the first whitespace character of `s`, or |s| if there is none. */
  function FirstSpace(s: string): (k: nat)
    ensures k <= |s|
    ensures k < |s| ==> IsSpace(s[k])
    ensures forall i :: 0 <= i < k ==> !IsSpace(s[i])
  {
    if s == [] then 0
    else if IsSpace(s[0]) then 0
    else 1 + FirstSpace(s[1..])
  }

  /** Python's `s.split()` with no argument: maximal runs of non-whitespace. */
  function Split(s: string): seq<string>
    decreases |s|
  {
    var t := LStrip(s);
    if t == [] then []
    else
      var k := FirstSpace(t);
      assert k > 0 by { assert !IsSpace(t[0]); }
      [t[..k]] + Split(t[k..])
  }

  /** Every piece `split()` yields is a word. */
  lemma {:induction false} SplitIsWords(s: string)
    ensures forall w :: w in Split(s) ==> IsWord(w)
    decreases |s|
  {
    var t := LStrip(s);
    if t != [] {
      var k := FirstSpace(t);
      assert !IsSpace(t[0]);
      var w := t[..k];
      assert IsWord(w) by {
        forall i | 0 <= i < |w| ensures !IsSpace(w[i]) { assert w[i] == t[i]; }
      }
      SplitIsWords(t[k..]);
      assert Split(s) == [w] + Split(t[k..]);
    }
  }

  /** A word without whitespace, followed by nothing or by whitespace, is where the
      first whitespace search stops. */
  lemma {:induction false} FirstSpaceAfterWord(w: string, tail: string)
    requires !HasSpace(w)
    requires tail == [] || IsSpace(tail[0])
    ensures FirstSpace(w + tail) == |w|
  {
    if w != [] {
      assert !IsSpace(w[0]);
      assert !HasSpace(w[1..]) by {
        forall i | 0 <= i < |w[1..]| ensures !IsSpace(w[1..][i]) {
          assert w[1..][i] == w[i + 1];
        }
      }
      assert (w + tail)[1..] == w[1..] + tail;
      FirstSpaceAfterWord(w[1..], tail);
    } else {
      assert w + tail == tail;
    }
  }

  /** Split takes a leading word off up to the first whitespace. */
  lemma SplitCons(w: string, tail: string)
    requires w != [] && !HasSpace(w)
    requires tail == [] || IsSpace(tail[0])
    ensures Split(w + tail) == [w] + Split(tail)
  {
    var s := w + tail;
    assert s[0] == w[0];
    assert !IsSpace(w[0]);
    assert LStrip(s) == s;
    FirstSpaceAfterWord(w, tail);
    assert s[..|w|] == w;
    assert s[|w|..] == tail;
  }

  /** A non-empty run of non-whitespace characters. */
  predicate IsWord(w: string) {
    w != [] && !HasSpace(w)
  }

  /** Splitting words joined by single spaces gives the words back. */
  lemma {:induction false} SplitJoin(words: seq<string>)
    requires forall i :: 0 <= i < |words| ==> IsWord(words[i])
    ensures Split(Join(" ", words)) == words
    decreases |words|
  {
    if |words| == 1 {
      assert IsWord(words[0]);
      SplitCons(words[0], []);
      assert words[0] + [] == words[0];
    } else if |words| > 1 {
      var w := words[0];
      assert IsWord(w);
      var rest := Join(" ", words[1..]);
      assert Join(" ", words) == w + " " + rest;
      SplitWordSpace(w, rest);
      SplitJoin(words[1..]);
      assert words == [w] + words[1..];
    }
  }

  /** A word, a space and the rest split into the word and the words of the rest. */
  lemma SplitWordSpace(w: string, rest: string)
    requires IsWord(w)
    ensures Split(w + " " + rest) == [w] + Split(rest)
  {
    assert w + " " + rest == w + (" " + rest);
    SplitCons(w, " " + rest);
    SplitAfterSpace(rest);
  }

  lemma SplitAfterSpace(rest: string)
    ensures Split(" " + rest) == Split(rest)
  {
    assert IsSpace(' ');
    assert (" " + rest)[1..] == rest;
    assert LStrip(" " + rest) == LStrip(rest);
  }

  /** Leading whitespace does not change the words. */
  lemma SplitLStrip(s: string)
    ensures Split(s) == Split(LStrip(s))
  {
    var t := LStrip(s);
    assert LStrip(t) == t;
  }

  lemma {:induction false} LStripAppend(x: string, y: string)
    ensures LStrip(x) != [] ==> LStrip(x + y) == LStrip(x) + y
    ensures LStrip(x) == [] ==> LStrip(x + y) == LStrip(y)
  {
    if x == [] {
      assert x + y == y;
    } else if IsSpace(x[0]) {
      assert (x + y)[0] == x[0];
      assert (x + y)[1..] == x[1..] + y;
      LStripAppend(x[1..], y);
    } else {
      assert (x + y)[0] == x[0];
    }
  }

  /** A single word splits into itself. */
  lemma SplitWord(w: string)
    requires IsWord(w)
    ensures Split(w) == [w]
  {
    calc {
      Split(w);
      { assert w == w + []; }
      Split(w + []);
      { SplitCons(w, []); }
      [w] + Split([]);
      [w];
    }
  }

  /** Any whitespace character separates: the words of `a c b` are the words of `a`
      followed by the words of `b`. With SplitWord this fixes `split()` on every input. */
  lemma {:induction false} SplitAtSpace(a: string, c: char, b: string)
    requires IsSpace(c)
    ensures Split(a + [c] + b) == Split(a) + Split(b)
    decreases |a|, 2
  {
    var cb := [c] + b;
    var t := LStrip(a);
    if t == [] {
      calc {
        Split(a + [c] + b);
        { assert a + [c] + b == a + cb; }
        Split(a + cb);
        { SplitBlankPrefix(a, cb); }
        Split(cb);
        { SplitSkipSpace(c, b); }
        Split(b);
        { SplitLStrip(a); }
        Split(a) + Split(b);
      }
    } else {
      calc {
        Split(a + [c] + b);
        { assert a + [c] + b == a + cb; }
        Split(a + cb);
        { SplitNonBlankPrefix(a, cb); }
        Split(t + cb);
        { assert t + cb == t + [c] + b; SplitAtSpaceWord(t, c, b); }
        Split(t) + Split(b);
        { SplitLStrip(a); }
        Split(a) + Split(b);
      }
    }
  }

  /** The same, for a first part that starts with a word. */
  lemma {:induction false} SplitAtSpaceWord(t: string, c: char, b: string)
    requires IsSpace(c) && t != [] && !IsSpace(t[0])
    ensures Split(t + [c] + b) == Split(t) + Split(b)
    decreases |t|, 1
  {
    FirstWord(t);
    if FirstSpace(t) < |t| {
      SplitAtSpaceInner(t, c, b);
    } else {
      SplitAtSpaceOneWord(t, c, b);
    }
  }

  /** A first part with whitespace inside: its first word comes off, and the rest
      recurses. */
  lemma {:induction false} SplitAtSpaceInner(t: string, c: char, b: string)
    requires IsSpace(c) && IsWord(t[..FirstSpace(t)]) && FirstSpace(t) < |t|
    ensures Split(t + [c] + b) == Split(t) + Split(b)
    decreases |t|, 0
  {
    var cb := [c] + b;
    var k := FirstSpace(t);
    var w := t[..k];
    var u := t[k..];
    assert t == w + u;
    calc {
      Split(t + [c] + b);
      { assert t + [c] + b == w + (u + cb); }
      Split(w + (u + cb));
      { SplitCons(w, u + cb); }
      [w] + Split(u + cb);
      { assert u + cb == u + [c] + b; SplitAtSpace(u, c, b); }
      [w] + (Split(u) + Split(b));
      { ConcatAssoc([w], Split(u), Split(b)); }
      ([w] + Split(u)) + Split(b);
      { SplitCons(w, u); }
      Split(t) + Split(b);
    }
  }

  /** A first part that is a single word. */
  lemma SplitAtSpaceOneWord(t: string, c: char, b: string)
    requires IsSpace(c) && IsWord(t)
    ensures Split(t + [c] + b) == Split(t) + Split(b)
  {
    calc {
      Split(t + [c] + b);
      { assert t + [c] + b == t + ([c] + b); }
      Split(t + ([c] + b));
      { SplitCons(t, [c] + b); }
      [t] + Split([c] + b);
      { SplitSkipSpace(c, b); }
      [t] + Split(b);
      { SplitWord(t); }
      Split(t) + Split(b);
    }
  }

  lemma ConcatAssoc<T>(x: seq<T>, y: seq<T>, z: seq<T>)
    ensures x + (y + z) == (x + y) + z
  {
  }

  /** The text before the first whitespace of a string that starts with a non-space is
      a word. */
  lemma FirstWord(t: string)
    requires t != [] && !IsSpace(t[0])
    ensures IsWord(t[..FirstSpace(t)])
  {
    var w := t[..FirstSpace(t)];
    forall i | 0 <= i < |w| ensures !IsSpace(w[i]) { assert w[i] == t[i]; }
  }

  lemma SplitSkipSpace(c: char, b: string)
    requires IsSpace(c)
    ensures Split([c] + b) == Split(b)
  {
    assert ([c] + b)[1..] == b;
    assert LStrip([c] + b) == LStrip(b);
    SplitLStrip([c] + b);
    SplitLStrip(b);
  }

  lemma SplitBlankPrefix(a: string, y: string)
    requires LStrip(a) == []
    ensures Split(a + y) == Split(y)
  {
    LStripAppend(a, y);
    SplitLStrip(a + y);
    SplitLStrip(y);
  }

  lemma SplitNonBlankPrefix(a: string, y: string)
    requires LStrip(a) != []
    ensures Split(a + y) == Split(LStrip(a) + y)
  {
    LStripAppend(a, y);
    SplitLStrip(a + y);
  }

  /** Python's `s.replace(pat, rep)`: non-overlapping occurrences, leftmost first. */
  function ReplaceAll(s: string, pat: string, rep: string): (r: string)
    requires pat != []
    ensures rep == [] ==> |r| <= |s|
    decreases |s|
  {
    if |s| < |pat| then s
    else if s[..|pat|] == pat then rep + ReplaceAll(s[|pat|..], pat, rep)
    else [s[0]] + ReplaceAll(s[1..], pat, rep)
  }

  predicate OccursAt(s: string, pat: string, i: int) {
    0 <= i <= |s| - |pat| && s[i..i + |pat|] == pat
  }

  /** Whether `pat` occurs in `s`. */
  predicate Contains(s: string, pat: string) {
    exists i | 0 <= i <= |s| - |pat| :: OccursAt(s, pat, i)
  }

  lemma {:induction false} ReplaceAbsent(s: string, pat: string, rep: string)
    requires pat != [] && !Contains(s, pat)
    ensures ReplaceAll(s, pat, rep) == s
    decreases |s|
  {
    if |s| >= |pat| {
      assert !OccursAt(s, pat, 0);
      assert s[0..|pat|] == s[..|pat|];
      assert !Contains(s[1..], pat) by {
        forall i | OccursAt(s[1..], pat, i)
          ensures false
        {
          assert s[1..][i..i + |pat|] == s[i + 1..i + 1 + |pat|];
          assert OccursAt(s, pat, i + 1);
        }
      }
      ReplaceAbsent(s[1..], pat, rep);
      assert s == [s[0]] + s[1..];
    }
  }

  /** Decimal digit of a number below ten. */
  function DigitChar(d: nat): (c: char)
    requires d < 10
    ensures '0' <= c <= '9'
  {
    ('0' as int + d) as char
  }

  /** Python's `str(n)` for a natural number: decimal, no leading zeros. */
  function DecimalString(n: nat): (r: string)
    ensures r != []
    ensures forall i :: 0 <= i < |r| ==> '0' <= r[i] <= '9'
  {
    if n < 10 then [DigitChar(n)] else DecimalString(n / 10) + [DigitChar(n % 10)]
  }

  /** Fixed-width decimal with leading zeros, as Python's `f"{n:0{width}d}"`. */
  function PadDigits(n: nat, width: nat): (r: string)
    ensures |r| == width
    ensures forall i :: 0 <= i < |r| ==> '0' <= r[i] <= '9'
  {
    if width == 0 then [] else PadDigits(n / 10, width - 1) + [DigitChar(n % 10)]
  }

  function Pow10(k: nat): (r: nat)
    ensures r >= 1
  {
    if k == 0 then 1 else 10 * Pow10(k - 1)
  }

  /** Value of a string of decimal digits. */
  function DigitsValue(s: string): (v: nat)
    requires forall i :: 0 <= i < |s| ==> '0' <= s[i] <= '9'
    ensures v < Pow10(|s|)
  {
    if s == [] then 0 else 10 * DigitsValue(s[..|s| - 1]) + (s[|s| - 1] as int - '0' as int)
  }

  lemma {:induction false} PadDigitsValue(n: nat, width: nat)
    requires n < Pow10(width)
    ensures DigitsValue(PadDigits(n, width)) == n
  {
    if width > 0 {
      var p := PadDigits(n, width);
      assert p[..|p| - 1] == PadDigits(n / 10, width - 1);
      PadDigitsValue(n / 10, width - 1);
    }
  }
}
