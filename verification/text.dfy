/**
 Whitespace trimming as JavaScript's `String.prototype.trim` performs it:
 strip the longest prefix and the longest suffix of white-space and
 line-terminator characters.
 */
module Text {

  /** The characters ECMAScript calls WhiteSpace or LineTerminator
      (the space separators are those of Unicode category Zs). */
  predicate IsSpace(c: char) {
    || c == '\t' || c == '\n' || c == '\U{000B}' || c == '\U{000C}' || c == '\r'
    || c == ' ' || c == '\U{00A0}' || c == '\U{1680}'
    || ('\U{2000}' <= c <= '\U{200A}')
    || c == '\U{2028}' || c == '\U{2029}' || c == '\U{202F}' || c == '\U{205F}'
    || c == '\U{3000}' || c == '\U{FEFF}'
  }

  /** Every character of `s` is white space (true of the empty string). */
  predicate AllSpace(s: string) {
    forall k :: 0 <= k < |s| ==> IsSpace(s[k])
  }

  /** `s.trim()`: drop white space at the front, then at the back. The result
      neither starts nor ends with white space; `TrimInfix` says where it sits
      in `s` and `TrimUnique` that nothing else qualifies. */
  function Trim(s: string): (r: string)
    decreases |s|
    ensures |r| <= |s|
    ensures r == [] || (!IsSpace(r[0]) && !IsSpace(r[|r| - 1]))
  {
    if s == [] then []
    else if IsSpace(s[0]) then Trim(s[1..])
    else if IsSpace(s[|s| - 1]) then Trim(s[..|s| - 1])
    else s
  }

  /** The trimmed string is an infix of `s` with only white space before and after it. */
  lemma {:induction false} TrimInfix(s: string) returns (i: nat)
    decreases |s|, 1
    ensures i + |Trim(s)| <= |s|
    ensures s[i..i + |Trim(s)|] == Trim(s)
    ensures AllSpace(s[..i]) && AllSpace(s[i + |Trim(s)|..])
  {
    if s == [] {
      i := 0;
    } else if IsSpace(s[0]) {
      i := TrimInfixFront(s);
    } else if IsSpace(s[|s| - 1]) {
      i := TrimInfixBack(s);
    } else {
      i := 0;
    }
  }

  /** `TrimInfix` when the string starts with white space. */
  lemma {:induction false} TrimInfixFront(s: string) returns (i: nat)
    requires s != [] && IsSpace(s[0])
    decreases |s|, 0
    ensures i + |Trim(s)| <= |s|
    ensures s[i..i + |Trim(s)|] == Trim(s)
    ensures AllSpace(s[..i]) && AllSpace(s[i + |Trim(s)|..])
  {
    var j := TrimInfix(s[1..]);
    i := j + 1;
    InfixAfterSpace(s, Trim(s), j);
  }

  /** `TrimInfix` when the string ends, but does not start, with white space. */
  lemma {:induction false} TrimInfixBack(s: string) returns (i: nat)
    requires s != [] && !IsSpace(s[0]) && IsSpace(s[|s| - 1])
    decreases |s|, 0
    ensures i + |Trim(s)| <= |s|
    ensures s[i..i + |Trim(s)|] == Trim(s)
    ensures AllSpace(s[..i]) && AllSpace(s[i + |Trim(s)|..])
  {
    i := TrimInfix(s[..|s| - 1]);
    InfixBeforeSpace(s, Trim(s), i);
  }

  /** An infix of the tail surrounded by white space, seen in the whole string
      when its head is white space. */
  lemma InfixAfterSpace(s: string, r: string, j: nat)
    requires s != [] && IsSpace(s[0])
    requires j + |r| <= |s| - 1 && s[1..][j..j + |r|] == r
    requires AllSpace(s[1..][..j]) && AllSpace(s[1..][j + |r|..])
    ensures s[j + 1..j + 1 + |r|] == r
    ensures AllSpace(s[..j + 1]) && AllSpace(s[j + 1 + |r|..])
  {
    var t := s[1..];
    assert s[j + 1..j + 1 + |r|] == t[j..j + |r|];
    assert s[j + 1 + |r|..] == t[j + |r|..];
    var head := s[..j + 1];
    forall k | 0 <= k < |head| ensures IsSpace(head[k]) {
      if k > 0 { assert head[k] == t[..j][k - 1]; }
    }
  }

  /** An infix of the front surrounded by white space, seen in the whole string
      when its last character is white space. */
  lemma InfixBeforeSpace(s: string, r: string, i: nat)
    requires s != [] && IsSpace(s[|s| - 1])
    requires i + |r| <= |s| - 1 && s[..|s| - 1][i..i + |r|] == r
    requires AllSpace(s[..|s| - 1][..i]) && AllSpace(s[..|s| - 1][i + |r|..])
    ensures s[i..i + |r|] == r
    ensures AllSpace(s[..i]) && AllSpace(s[i + |r|..])
  {
    var t := s[..|s| - 1];
    assert s[i..i + |r|] == t[i..i + |r|];
    assert s[..i] == t[..i];
    var tail := s[i + |r|..];
    forall k | 0 <= k < |tail| ensures IsSpace(tail[k]) {
      if i + |r| + k < |s| - 1 {
        assert tail[k] == t[i + |r|..][k];
      }
    }
  }

  /** A string that trims to nothing is all white space, and conversely:
      this is the `!label.trim()` test the store applies to every input. */
  lemma TrimEmptyIff(s: string)
    ensures Trim(s) == [] <==> AllSpace(s)
  {
    var r := Trim(s);
    var i := TrimInfix(s);
    if r == [] {
      forall k | 0 <= k < |s| ensures IsSpace(s[k]) {
        if k < i { assert s[..i][k] == s[k]; } else { assert s[i..][k - i] == s[k]; }
      }
    } else {
      assert r[0] == s[i];
    }
  }

  lemma TrimFront(s: string)
    requires s != [] && IsSpace(s[0])
    ensures Trim(s) == Trim(s[1..])
  {
  }

  lemma TrimBack(s: string)
    requires s != [] && !IsSpace(s[0]) && IsSpace(s[|s| - 1])
    ensures Trim(s) == Trim(s[..|s| - 1])
  {
  }

  /** The trimmed string is the unique infix with white space around it and
      none at its own ends: trimming is specified independently of the
      order in which the function strips characters. */
  lemma {:induction false} TrimUnique(a: string, t: string, b: string)
    requires AllSpace(a) && AllSpace(b)
    requires t == [] || (!IsSpace(t[0]) && !IsSpace(t[|t| - 1]))
    ensures Trim(a + t + b) == t
    decreases |a| + |b|
  {
    var s := a + t + b;
    if a != [] {
      assert s[0] == a[0];
      assert s[1..] == a[1..] + t + b;
      TrimFront(s);
      TrimUnique(a[1..], t, b);
    } else if t != [] && b != [] {
      assert s == t + b;
      assert s[0] == t[0];
      assert s[|s| - 1] == b[|b| - 1];
      assert s[..|s| - 1] == a + t + b[..|b| - 1];
      TrimBack(s);
      TrimUnique(a, t, b[..|b| - 1]);
    } else if t != [] {
      assert s == t;
    } else if b != [] {
      assert s == b;
      assert s[1..] == a + t + b[1..];
      TrimFront(s);
      TrimUnique(a, t, b[1..]);
    } else {
      assert s == [];
    }
  }

  /** Trimming twice is trimming once. */
  lemma TrimIdempotent(s: string)
    ensures Trim(Trim(s)) == Trim(s)
  {
    var r := Trim(s);
    TrimUnique([], r, []);
    assert [] + r + [] == r;
  }
}
