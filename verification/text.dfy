/**
 The string primitives the engine uses: `substring(0, n)`, `Array.prototype.join`
 and `String.prototype.trim`, over strings as sequences of characters.
 */
module Text {
  import opened Types

  /** `s.substring(0, n)`: the first `n` characters, or all of `s` when it is shorter. */
  function Take(s: string, n: nat): (r: string)
    ensures |r| == Min(n, |s|)
    ensures r <= s
  {
    if |s| <= n then s else s[..n]
  }

  /** `parts.join(sep)`. */
  function Join(sep: string, parts: seq<string>): string
  {
    if |parts| == 0 then ""
    else if |parts| == 1 then parts[0]
    else parts[0] + sep + Join(sep, parts[1..])
  }

  lemma {:induction false} JoinTwo(sep: string, a: string, b: string)
    ensures Join(sep, [a, b]) == a + sep + b
  {
    assert [a, b][1..] == [b];
  }

  /** Joining a non-empty list yields text that begins with its first part. */
  lemma {:induction false} JoinStartsWithFirst(sep: string, parts: seq<string>)
    requires |parts| > 0
    ensures parts[0] <= Join(sep, parts)
  {
  }

  /**
   The characters `String.prototype.trim` removes: the ECMAScript WhiteSpace
   and LineTerminator code points.
   */
  predicate IsJsWhitespace(ch: char) {
    var c := ch as int;
    || c == 0x09 || c == 0x0A || c == 0x0B || c == 0x0C || c == 0x0D || c == 0x20
    || c == 0xA0 || c == 0x1680 || (0x2000 <= c <= 0x200A)
    || c == 0x2028 || c == 0x2029 || c == 0x202F || c == 0x205F
    || c == 0x3000 || c == 0xFEFF
  }

  predicate AllWhitespace(s: string) {
    forall i :: 0 <= i < |s| ==> IsJsWhitespace(s[i])
  }

  /** The number of leading whitespace characters. */
  function LeadingSpace(s: string): (n: nat)
    ensures n <= |s|
    ensures AllWhitespace(s[..n])
    ensures n < |s| ==> !IsJsWhitespace(s[n])
  {
    if |s| == 0 || !IsJsWhitespace(s[0]) then 0
    else 1 + LeadingSpace(s[1..])
  }

  /** The number of trailing whitespace characters. */
  function TrailingSpace(s: string): (n: nat)
    ensures n <= |s|
    ensures AllWhitespace(s[|s| - n..])
    ensures n < |s| ==> !IsJsWhitespace(s[|s| - n - 1])
  {
    if |s| == 0 || !IsJsWhitespace(s[|s| - 1]) then 0
    else
      var n := TrailingSpace(s[..|s| - 1]);
      WhitespaceTailGrows(s, n);
      1 + n
  }

  /** A whitespace tail of all but the last character, followed by a whitespace last character, is a whitespace tail. */
  lemma WhitespaceTailGrows(s: string, n: nat)
    requires 0 < |s| && n < |s| && IsJsWhitespace(s[|s| - 1])
    requires AllWhitespace(s[..|s| - 1][|s| - 1 - n..])
    ensures AllWhitespace(s[|s| - n - 1..])
  {
    var t := s[..|s| - 1][|s| - 1 - n..];
    var u := s[|s| - n - 1..];
    forall i | 0 <= i < |u|
      ensures IsJsWhitespace(u[i])
    {
      if i < n {
        assert u[i] == t[i];
      }
    }
  }

  /**
   `s.trim()`: a contiguous slice of `s` obtained by removing only whitespace
   from both ends, which neither begins nor ends with whitespace.
   */
  function Trim(s: string): (r: string)
    ensures exists i, j :: 0 <= i <= j <= |s| && r == s[i..j] && AllWhitespace(s[..i]) && AllWhitespace(s[j..])
    ensures |r| > 0 ==> !IsJsWhitespace(r[0]) && !IsJsWhitespace(r[|r| - 1])
  {
    var i := LeadingSpace(s);
    var k := TrailingSpace(s[i..]);
    TrimSlice(s, i, k);
    s[i..|s| - k]
  }

  /** Cutting the leading and the trailing whitespace runs leaves a slice with whitespace on neither end. */
  lemma TrimSlice(s: string, i: nat, k: nat)
    requires i <= |s| && k <= |s| - i
    requires AllWhitespace(s[..i]) && (i < |s| ==> !IsJsWhitespace(s[i]))
    requires AllWhitespace(s[i..][|s| - i - k..])
    requires k < |s| - i ==> !IsJsWhitespace(s[i..][|s| - i - k - 1])
    ensures AllWhitespace(s[|s| - k..])
    ensures var r := s[i..|s| - k]; |r| > 0 ==> !IsJsWhitespace(r[0]) && !IsJsWhitespace(r[|r| - 1])
  {
    assert s[i..][|s| - i - k..] == s[|s| - k..];
  }

  /** Trimming twice is trimming once. */
  lemma {:induction false} TrimIdempotent(s: string)
    ensures Trim(Trim(s)) == Trim(s)
  {
    var t := Trim(s);
    if |t| > 0 {
      assert LeadingSpace(t) == 0;
      assert t[0..] == t;
      assert TrailingSpace(t) == 0;
      assert t[0..|t|] == t;
    }
  }

  /** Text made only of whitespace is all leading whitespace. */
  lemma {:induction false} LeadingOfBlank(w: string)
    requires AllWhitespace(w)
    ensures LeadingSpace(w) == |w|
    decreases |w|
  {
    if |w| > 0 {
      assert IsJsWhitespace(w[0]);
      assert AllWhitespace(w[1..]) by {
        forall i | 0 <= i < |w[1..]|
          ensures IsJsWhitespace(w[1..][i])
        {
          assert w[1..][i] == w[i + 1];
        }
      }
      LeadingOfBlank(w[1..]);
    }
  }

  /** Whitespace padded onto text that does not end in whitespace is exactly its trailing whitespace. */
  lemma {:induction false} TrailingOfPadded(t: string, w: string)
    requires |t| > 0 ==> !IsJsWhitespace(t[|t| - 1])
    requires AllWhitespace(w)
    ensures TrailingSpace(t + w) == |w|
    decreases |w|
  {
    var s := t + w;
    if |w| == 0 {
      assert s == t;
    } else {
      var w' := w[..|w| - 1];
      assert s[|s| - 1] == w[|w| - 1];
      assert s[..|s| - 1] == t + w';
      assert AllWhitespace(w') by {
        forall i | 0 <= i < |w'|
          ensures IsJsWhitespace(w'[i])
        {
          assert w'[i] == w[i];
        }
      }
      TrailingOfPadded(t, w');
    }
  }

  /** Trimming text without surrounding whitespace, padded on the right with whitespace, gives the text back. */
  lemma TrimDropsPadding(t: string, w: string)
    requires |t| > 0 ==> !IsJsWhitespace(t[0]) && !IsJsWhitespace(t[|t| - 1])
    requires AllWhitespace(w)
    ensures Trim(t + w) == t
  {
    var s := t + w;
    if |t| == 0 {
      assert s == w;
      LeadingOfBlank(w);
    } else {
      assert s[0] == t[0];
      assert LeadingSpace(s) == 0;
      assert s[0..] == s;
      TrailingOfPadded(t, w);
      assert s[0..|s| - |w|] == t;
    }
  }
}
