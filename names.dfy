/** Name normalisation as the ballot box applies it to every roster name
    and every vote: strip surrounding whitespace, then capitalise (first
    character upper case, the rest lower case). Whitespace and case are
    those of ASCII. */
module Names {

  /** The ASCII characters that stripping removes: tab, line feed,
      vertical tab, form feed, carriage return, the four separator
      controls 0x1C-0x1F and space. */
  predicate IsSpace(c: char)
  {
    9 <= c as int <= 13 || 28 <= c as int <= 32
  }

  predicate AllSpace(s: string)
  {
    forall k :: 0 <= k < |s| ==> IsSpace(s[k])
  }

  function Upper(c: char): (u: char)
    ensures 'a' <= c <= 'z' ==> u as int == c as int - 32
    ensures !('a' <= c <= 'z') ==> u == c
  {
    if 'a' <= c <= 'z' then (c as int - 32) as char else c
  }

  function Lower(c: char): (l: char)
    ensures 'A' <= c <= 'Z' ==> l as int == c as int + 32
    ensures !('A' <= c <= 'Z') ==> l == c
  {
    if 'A' <= c <= 'Z' then (c as int + 32) as char else c
  }

  /** Removes leading whitespace: the result is a suffix of s that is
      empty or starts with a non-space character. */
  function TrimLeft(s: string): (r: string)
    ensures |r| <= |s|
    ensures r == [] || !IsSpace(r[0])
  {
    if s != [] && IsSpace(s[0]) then TrimLeft(s[1..]) else s
  }

  /** Removes trailing whitespace: the result is a prefix of s that is
      empty or ends with a non-space character. */
  function TrimRight(s: string): (r: string)
    ensures |r| <= |s|
    ensures r == [] || !IsSpace(r[|r| - 1])
  {
    if s != [] && IsSpace(s[|s| - 1]) then TrimRight(s[..|s| - 1]) else s
  }

  /** TrimLeft drops exactly the leading whitespace: what it removes is
      all whitespace and what it keeps is the rest of s. */
  lemma {:induction false} TrimLeftIsSuffix(s: string)
    ensures TrimLeft(s) == s[|s| - |TrimLeft(s)|..]
    ensures AllSpace(s[..|s| - |TrimLeft(s)|])
  {
    if s != [] && IsSpace(s[0]) {
      var t := TrimLeft(s[1..]);
      TrimLeftIsSuffix(s[1..]);
      assert s[..|s| - |t|] == [s[0]] + s[1..][..|s| - 1 - |t|];
    }
  }

  /** TrimRight drops exactly the trailing whitespace. */
  lemma {:induction false} TrimRightIsPrefix(s: string)
    ensures TrimRight(s) == s[..|TrimRight(s)|]
    ensures AllSpace(s[|TrimRight(s)|..])
  {
    if s != [] && IsSpace(s[|s| - 1]) {
      var t := TrimRight(s[..|s| - 1]);
      TrimRightIsPrefix(s[..|s| - 1]);
      assert s[|t|..] == s[..|s| - 1][|t|..] + [s[|s| - 1]];
    }
  }

  /** Python's str.strip() with no argument (restricted to ASCII):
      the slice of s between its maximal whitespace prefix and suffix. */
  function Strip(s: string): (r: string)
    ensures r == [] || (!IsSpace(r[0]) && !IsSpace(r[|r| - 1]))
  {
    var t := TrimLeft(s);
    TrimRightIsPrefix(t);
    TrimRight(t)
  }

  /** Strip returns a slice s[i..j] and removes only whitespace around it. */
  lemma StripIsSlice(s: string)
    ensures var i := |s| - |TrimLeft(s)|;
            var j := i + |Strip(s)|;
            j <= |s| && Strip(s) == s[i..j] && AllSpace(s[..i]) && AllSpace(s[j..])
  {
    var t := TrimLeft(s);
    var i := |s| - |t|;
    var j := i + |Strip(s)|;
    TrimLeftIsSuffix(s);
    TrimRightIsPrefix(t);
    assert t == s[i..];
    assert s[j..] == t[|Strip(s)|..];
  }

  /** Python's str.capitalize() (restricted to ASCII): the first
      character in upper case, every other character in lower case. */
  function Capitalize(s: string): (r: string)
    ensures |r| == |s|
    ensures forall k :: 0 <= k < |s| ==> r[k] == (if k == 0 then Upper(s[k]) else Lower(s[k]))
  {
    seq(|s|, k requires 0 <= k < |s| => if k == 0 then Upper(s[k]) else Lower(s[k]))
  }

  /** The normalised form of a participant name: strip(), then capitalize(). */
  function Normalise(s: string): (r: string)
    ensures |r| == |Strip(s)| <= |s|
    ensures r == [] || (!IsSpace(r[0]) && !IsSpace(r[|r| - 1]))
    ensures r == [] || r[0] == Upper(Strip(s)[0])
    ensures forall k :: 0 < k < |r| ==> r[k] == Lower(Strip(s)[k])
  {
    Capitalize(Strip(s))
  }

  /** A trimmed string stays trimmed under capitalisation: case mapping
      never turns a letter into whitespace or whitespace into a letter. */
  lemma CapitalizeKeepsEnds(t: string)
    requires t == [] || (!IsSpace(t[0]) && !IsSpace(t[|t| - 1]))
    ensures Strip(Capitalize(t)) == Capitalize(t)
  {
  }

  /** Normalising twice is normalising once; every normalised name is a
      fixed point. */
  lemma NormaliseIdempotent(s: string)
    ensures Normalise(Normalise(s)) == Normalise(s)
  {
  }

  lemma {:induction false} TrimLeftPadded(p: string, s: string)
    requires AllSpace(p)
    ensures TrimLeft(p + s) == TrimLeft(s)
  {
    if p != [] {
      assert (p + s)[1..] == p[1..] + s;
      TrimLeftPadded(p[1..], s);
    } else {
      assert p + s == s;
    }
  }

  lemma {:induction false} TrimRightPadded(s: string, q: string)
    requires AllSpace(q)
    ensures TrimRight(s + q) == TrimRight(s)
  {
    if q != [] {
      var q' := q[..|q| - 1];
      assert (s + q)[..|s + q| - 1] == s + q';
      TrimRightPadded(s, q');
    } else {
      assert s + q == s;
    }
  }

  /** What follows a string matters to the left trim only when the
      string is all whitespace. */
  lemma {:induction false} TrimLeftAppend(s: string, q: string)
    ensures TrimLeft(s) != [] ==> TrimLeft(s + q) == TrimLeft(s) + q
    ensures TrimLeft(s) == [] ==> TrimLeft(s + q) == TrimLeft(q)
  {
    if s == [] {
      assert s + q == q;
    } else if IsSpace(s[0]) {
      assert (s + q)[1..] == s[1..] + q;
      TrimLeftAppend(s[1..], q);
    }
  }

  /** Whitespace around a string does not change what strip() returns. */
  lemma StripIgnoresPadding(p: string, s: string, q: string)
    requires AllSpace(p) && AllSpace(q)
    ensures Strip(p + s + q) == Strip(s)
  {
    var t := TrimLeft(s);
    assert p + s + q == p + (s + q);
    TrimLeftPadded(p, s + q);
    TrimLeftAppend(s, q);
    if t == [] {
      assert q == q + [];
      TrimLeftPadded(q, []);
    } else {
      TrimRightPadded(t, q);
    }
  }

  /** Whitespace around a name does not change its normal form. */
  lemma NormaliseIgnoresPadding(p: string, s: string, q: string)
    requires AllSpace(p) && AllSpace(q)
    ensures Normalise(p + s + q) == Normalise(s)
  {
    StripIgnoresPadding(p, s, q);
  }
}
