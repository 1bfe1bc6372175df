/** Removal of the space padding around a decoded fixed-width text field. */
module Text {

  /** A text made of ASCII spaces only (possibly empty). */
  predicate AllSpaces(s: string)
  {
    forall i :: 0 <= i < |s| ==> s[i] == ' '
  }

  /** A text that neither starts nor ends with a space. */
  predicate Unpadded(s: string)
  {
    s == [] || (s[0] != ' ' && s[|s| - 1] != ' ')
  }

  /** Drops the leading spaces. */
  function TrimLeft(s: string): (r: string)
    ensures |r| <= |s| && r == s[|s| - |r|..]
    ensures AllSpaces(s[..|s| - |r|])
    ensures r == [] || r[0] != ' '
  {
    if s != [] && s[0] == ' ' then
      var r := TrimLeft(s[1..]);
      assert s[..|s| - |r|] == [' '] + s[1..][..|s| - 1 - |r|];
      r
    else s
  }

  /** Drops the trailing spaces. */
  function TrimRight(s: string): (r: string)
    ensures |r| <= |s| && r == s[..|r|]
    ensures AllSpaces(s[|r|..])
    ensures r == [] || r[|r| - 1] != ' '
  {
    if s != [] && s[|s| - 1] == ' ' then
      var r := TrimRight(s[..|s| - 1]);
      assert s[|r|..] == s[..|s| - 1][|r|..] + [' '];
      r
    else s
  }

  /** Removes ASCII spaces at both ends and nothing else. */
  function Trim(s: string): (r: string)
    ensures |r| <= |s|
    ensures Unpadded(r)
  {
    TrimRight(TrimLeft(s))
  }

  /** The trimmed text is what is left between a run of leading and a run of
      trailing spaces, and it has no space at either end; interior characters
      (spaces included) are untouched. */
  lemma TrimSplits(s: string)
    ensures exists i, j :: 0 <= i <= j <= |s| && Trim(s) == s[i..j] &&
                           AllSpaces(s[..i]) && AllSpaces(s[j..])
    ensures Unpadded(Trim(s))
  {
    var l := TrimLeft(s);
    var i := |s| - |l|;
    var j := i + |TrimRight(l)|;
    assert s[i..j] == l[..|TrimRight(l)|];
    assert s[j..] == l[|TrimRight(l)|..];
  }

  /** The decomposition is unique: any text written as spaces, an unpadded
      middle and spaces trims to that middle. */
  lemma {:induction false} TrimOfPadded(pre: string, m: string, post: string)
    requires AllSpaces(pre) && AllSpaces(post) && Unpadded(m)
    ensures Trim(pre + m + post) == m
  {
    if m == [] {
      assert pre + m + post == (pre + post) + [];
      TrimLeftOfPadded(pre + post, []);
    } else {
      assert pre + m + post == pre + (m + post);
      TrimLeftOfPadded(pre, m + post);
      TrimRightOfPadded(m, post);
    }
  }

  lemma {:induction false} TrimLeftOfPadded(pre: string, rest: string)
    requires AllSpaces(pre) && (rest == [] || rest[0] != ' ')
    ensures TrimLeft(pre + rest) == rest
  {
    if pre != [] {
      assert (pre + rest)[1..] == pre[1..] + rest;
      TrimLeftOfPadded(pre[1..], rest);
    }
  }

  lemma {:induction false} TrimRightOfPadded(m: string, post: string)
    requires AllSpaces(post) && (m == [] || m[|m| - 1] != ' ')
    ensures TrimRight(m + post) == m
  {
    if post != [] {
      var post' := post[..|post| - 1];
      assert (m + post)[..|m + post| - 1] == m + post';
      TrimRightOfPadded(m, post');
    } else {
      assert m + post == m;
    }
  }

  /** Trimming twice is trimming once. */
  lemma TrimIdempotent(s: string)
    ensures Trim(Trim(s)) == Trim(s)
  {
    TrimSplits(s);
    TrimOfPadded([], Trim(s), []);
    assert [] + Trim(s) + [] == Trim(s);
  }

  /** A space-padded Thai name keeps its letters and loses its padding. */
  lemma TrimPaddedName()
    ensures Trim("  \U{0E2A}\U{0E21}\U{0E0A}\U{0E32}\U{0E22}  ") == "\U{0E2A}\U{0E21}\U{0E0A}\U{0E32}\U{0E22}"
  {
    var name := "\U{0E2A}\U{0E21}\U{0E0A}\U{0E32}\U{0E22}";
    TrimOfPadded("  ", name, "  ");
    assert "  " + name + "  " == "  \U{0E2A}\U{0E21}\U{0E0A}\U{0E32}\U{0E22}  ";
  }
}
