/** The few JavaScript string operations the page script relies on:
    `String.prototype.trim`, `Array.prototype.join` and `.length`. */
module JsString {

  /** The characters `trim` removes: the WhiteSpace and LineTerminator
      productions of ECMA-262 (tab, vertical tab, form feed, the byte order
      mark, every space separator, line feed, carriage return and the two
      Unicode line/paragraph separators). */
  predicate IsWhitespace(c: char) {
    || c == '\t' || c == '\n' || c == '\U{B}' || c == '\U{C}' || c == '\r'
    || c == ' ' || c == '\U{A0}' || c == '\U{1680}'
    || ('\U{2000}' <= c <= '\U{200A}')
    || c == '\U{2028}' || c == '\U{2029}' || c == '\U{202F}' || c == '\U{205F}'
    || c == '\U{3000}' || c == '\U{FEFF}'
  }

  predicate AllWhitespace(s: string) {
    forall i :: 0 <= i < |s| ==> IsWhitespace(s[i])
  }

  /** Neither end of `s` is a whitespace character. */
  predicate Trimmed(s: string) {
    |s| == 0 || (!IsWhitespace(s[0]) && !IsWhitespace(s[|s| - 1]))
  }

  /** `r` is what remains of `s` after cutting only whitespace off its two ends. */
  ghost predicate IsTrimOf(r: string, s: string) {
    exists i, j :: 0 <= i <= j <= |s| && r == s[i..j] && AllWhitespace(s[..i]) && AllWhitespace(s[j..])
  }

  /** JavaScript's `.length`: the number of UTF-16 code units, so a character
      outside the Basic Multilingual Plane counts twice. */
  function Utf16Length(s: string): (n: nat)
    ensures |s| <= n <= 2 * |s|
    ensures n == 0 <==> s == ""
    ensures (forall i :: 0 <= i < |s| ==> s[i] as int <= 0xFFFF) ==> n == |s|
    ensures |s| == 1 ==> n == CodeUnits(s[0])
  {
    if |s| == 0 then 0
    else CodeUnits(s[0]) + Utf16Length(s[1..])
  }

  /** UTF-16 code units that encode one character: two (a surrogate pair)
      outside the Basic Multilingual Plane, one inside it. */
  function CodeUnits(c: char): nat {
    if c as int > 0xFFFF then 2 else 1
  }

  /** `.length` adds up over concatenation; with the one-character case in
      `Utf16Length`'s contract this fixes its value on every string. */
  lemma {:induction false} Utf16LengthConcat(a: string, b: string)
    decreases |a|
    ensures Utf16Length(a + b) == Utf16Length(a) + Utf16Length(b)
  {
    if |a| > 0 {
      assert (a + b)[1..] == a[1..] + b;
      Utf16LengthConcat(a[1..], b);
    } else {
      assert a + b == b;
    }
  }

  /** `parts.join(sep)`. */
  function Join(parts: seq<string>, sep: string): (r: string)
    ensures |parts| == 0 ==> r == ""
  {
    if |parts| == 0 then ""
    else if |parts| == 1 then parts[0]
    else parts[0] + sep + Join(parts[1..], sep)
  }

  /** Number of whitespace characters at the start of `s`. */
  function LeadingWhitespace(s: string): (k: nat)
    ensures k <= |s|
    ensures forall i :: 0 <= i < k ==> IsWhitespace(s[i])
    ensures k < |s| ==> !IsWhitespace(s[k])
  {
    if |s| == 0 || !IsWhitespace(s[0]) then 0 else 1 + LeadingWhitespace(s[1..])
  }

  /** Number of whitespace characters at the end of `s`. */
  function TrailingWhitespace(s: string): (k: nat)
    ensures k <= |s|
    ensures forall i :: |s| - k <= i < |s| ==> IsWhitespace(s[i])
    ensures k < |s| ==> !IsWhitespace(s[|s| - 1 - k])
  {
    if |s| == 0 || !IsWhitespace(s[|s| - 1]) then 0
    else 1 + TrailingWhitespace(s[..|s| - 1])
  }

  /** `s.trim()`. */
  function Trim(s: string): (r: string)
    ensures Trimmed(r)
    ensures IsTrimOf(r, s)
    ensures r == "" <==> AllWhitespace(s)
  {
    var k := LeadingWhitespace(s);
    if k == |s| then
      assert s[..|s|] == s;
      assert IsTrimOf("", s) by { assert "" == s[|s|..|s|]; }
      ""
    else
      var t := TrailingWhitespace(s);
      var r := s[k..|s| - t];
      assert AllWhitespace(s[..k]);
      assert AllWhitespace(s[|s| - t..]);
      assert r[0] == s[k] && r[|r| - 1] == s[|s| - 1 - t];
      r
  }

  /** Trimming has exactly one possible outcome: any whitespace-free-ended
      slice obtained by cutting whitespace off both ends IS the trim. */
  lemma TrimUnique(r: string, s: string, i: nat, j: nat)
    requires i <= j <= |s| && r == s[i..j]
    requires AllWhitespace(s[..i]) && AllWhitespace(s[j..])
    requires Trimmed(r)
    ensures r == Trim(s)
  {
    var k := LeadingWhitespace(s);
    if i == j {
      assert s == s[..i] + s[j..];
      forall n | 0 <= n < |s| ensures IsWhitespace(s[n]) {
        if n < i { assert s[n] == s[..i][n]; } else { assert s[n] == s[j..][n - j]; }
      }
    } else {
      assert s[i] == r[0];
      assert k == i;
      var t := TrailingWhitespace(s);
      assert s[j - 1] == r[|r| - 1];
      assert |s| - t == j;
    }
  }

  /** Trimming twice is the same as trimming once. */
  lemma TrimIdempotent(s: string)
    ensures Trim(Trim(s)) == Trim(s)
  {
    var r := Trim(s);
    assert r[..0] == "" && r[|r|..] == "" && r[0..|r|] == r;
    TrimUnique(r, r, 0, |r|);
  }

  lemma {:induction false} AllWhitespaceConcat(a: string, b: string)
    ensures AllWhitespace(a + b) <==> AllWhitespace(a) && AllWhitespace(b)
  {
    if AllWhitespace(a + b) {
      forall i | 0 <= i < |b| ensures IsWhitespace(b[i]) { assert b[i] == (a + b)[|a| + i]; }
      forall i | 0 <= i < |a| ensures IsWhitespace(a[i]) { assert a[i] == (a + b)[i]; }
    }
  }

  /** A join starts with its first part and ends with its last. */
  lemma {:induction false} JoinEnds(parts: seq<string>, sep: string)
    requires |parts| > 0
    ensures var r, first, last := Join(parts, sep), parts[0], parts[|parts| - 1];
      && |first| <= |r| && r[..|first|] == first
      && |last| <= |r| && r[|r| - |last|..] == last
  {
    if |parts| > 1 {
      var rest := Join(parts[1..], sep);
      JoinEnds(parts[1..], sep);
      assert parts[1..][|parts| - 2] == parts[|parts| - 1];
      assert Join(parts, sep) == parts[0] + sep + rest;
    }
  }

  /** A joined string is blank exactly when every part is blank, provided the
      separator is. */
  lemma {:induction false} JoinAllWhitespace(parts: seq<string>, sep: string)
    requires AllWhitespace(sep)
    ensures AllWhitespace(Join(parts, sep)) <==> forall k :: 0 <= k < |parts| ==> AllWhitespace(parts[k])
  {
    if |parts| > 1 {
      JoinAllWhitespace(parts[1..], sep);
      AllWhitespaceConcat(parts[0] + sep, Join(parts[1..], sep));
      AllWhitespaceConcat(parts[0], sep);
      if forall k :: 0 <= k < |parts[1..]| ==> AllWhitespace(parts[1..][k]) {
        if AllWhitespace(parts[0]) {
          forall k | 0 <= k < |parts| ensures AllWhitespace(parts[k]) {
            if k > 0 { assert parts[k] == parts[1..][k - 1]; }
          }
        }
      }
    }
  }

  /** When no part contains `c` and the separator is `c` alone, the joined
      string holds exactly one `c` fewer than there are parts: splitting it on
      `c` gives the parts back one per line. */
  lemma {:induction false} JoinSeparatorCount(parts: seq<string>, c: char)
    requires |parts| > 0
    requires forall k :: 0 <= k < |parts| ==> c !in parts[k]
    ensures multiset(Join(parts, [c]))[c] == |parts| - 1
  {
    if |parts| == 1 {
      assert multiset(parts[0])[c] == 0;
    } else {
      var rest := Join(parts[1..], [c]);
      JoinSeparatorCount(parts[1..], c);
      assert c !in parts[0];
      assert multiset(parts[0])[c] == 0;
      assert Join(parts, [c]) == parts[0] + [c] + rest;
      assert multiset(parts[0] + [c] + rest) == multiset(parts[0]) + multiset([c]) + multiset(rest);
    }
  }

  /** `head` followed by the separator is a prefix of joining `[head] + tail`
      whenever `tail` is non-empty. */
  lemma JoinHead(head: string, tail: seq<string>, sep: string)
    requires |tail| > 0
    ensures Join([head] + tail, sep) == head + sep + Join(tail, sep)
  {
    assert ([head] + tail)[1..] == tail;
  }
}
