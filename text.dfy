/** Text primitives with Python's meaning: optional values, raised errors, whitespace,
    strip(), ASCII lower(), `in` on strings, startswith(), replace(p, "")
    and split(sep, 1). */
module Text {

  datatype Option<T> = None | Some(value: T)

  /** The built-in exceptions the modelled code can raise and not catch. */
  datatype PyError = AttributeError | IndexError | ValueError

  /** A value, or the exception raised instead of returning one. */
  datatype Result<T> = Ok(value: T) | Raised(error: PyError)

  /** Python's str.isspace() for one character: the characters that
      str.strip() removes and that `\s` matches in a str pattern. */
  predicate IsSpace(c: char) {
    || c == ' '
    || ('\t' <= c <= '\r')
    || ('\U{1C}' <= c <= '\U{1F}')
    || c == '\U{85}'
    || c == '\U{A0}'
    || c == '\U{1680}'
    || ('\U{2000}' <= c <= '\U{200A}')
    || c == '\U{2028}'
    || c == '\U{2029}'
    || c == '\U{202F}'
    || c == '\U{205F}'
    || c == '\U{3000}'
  }

  predicate AllSpace(s: string) {
    forall k :: 0 <= k < |s| ==> IsSpace(s[k])
  }

  /** s.lstrip(): drops the leading whitespace and nothing else. */
  function TrimLeft(s: string): (r: string)
    ensures |r| <= |s| && r == s[|s| - |r|..]
    ensures AllSpace(s[..|s| - |r|])
    ensures r != [] ==> !IsSpace(r[0])
  {
    if |s| > 0 && IsSpace(s[0]) then
      var r := TrimLeft(s[1..]);
      assert s[..|s| - |r|] == [s[0]] + s[1..][..|s| - 1 - |r|];
      r
    else s
  }

  /** s.rstrip(): drops the trailing whitespace and nothing else. */
  function TrimRight(s: string): (r: string)
    ensures |r| <= |s| && r == s[..|r|]
    ensures AllSpace(s[|r|..])
    ensures r != [] ==> !IsSpace(r[|r| - 1])
  {
    if |s| > 0 && IsSpace(s[|s| - 1]) then
      var r := TrimRight(s[..|s| - 1]);
      assert s[|r|..] == s[..|s| - 1][|r|..] + [s[|s| - 1]];
      r
    else s
  }

  /** s.strip() */
  function Strip(s: string): string {
    TrimRight(TrimLeft(s))
  }

  /** Strip only removes characters: what it keeps comes from s. */
  lemma StripSubset(s: string)
    ensures forall k :: 0 <= k < |Strip(s)| ==> Strip(s)[k] in s
  {
    forall k | 0 <= k < |Strip(s)|
      ensures Strip(s)[k] in s
    {
      StripAt(s, k);
    }
  }

  /** The k-th kept character is the one after the removed leading
      whitespace. */
  lemma StripAt(s: string, k: nat)
    requires k < |Strip(s)|
    ensures |s| - |TrimLeft(s)| + k < |s| && Strip(s)[k] == s[|s| - |TrimLeft(s)| + k]
  {
    var l := TrimLeft(s);
    assert Strip(s)[k] == l[k];
  }

  /** Strip leaves no whitespace at either end. */
  lemma StripEdges(s: string)
    ensures Strip(s) != [] ==> !IsSpace(Strip(s)[0]) && !IsSpace(Strip(s)[|Strip(s)| - 1])
  {
    if Strip(s) != [] {
      assert Strip(s)[0] == TrimLeft(s)[0];
    }
  }

  /** A character that is not whitespace survives lstrip, shifted by the
      number of characters removed. */
  lemma TrimLeftKeeps(s: string, k: nat)
    requires k < |s| && !IsSpace(s[k])
    ensures |s| - |TrimLeft(s)| <= k && TrimLeft(s)[k - (|s| - |TrimLeft(s)|)] == s[k]
  {
    var d := |s| - |TrimLeft(s)|;
    assert k >= d;
  }

  /** A character that is not whitespace survives rstrip in place. */
  lemma TrimRightKeeps(s: string, k: nat)
    requires k < |s| && !IsSpace(s[k])
    ensures k < |TrimRight(s)| && TrimRight(s)[k] == s[k]
  {
    var n := |TrimRight(s)|;
    assert k < n;
  }

  /** A character that is not whitespace survives strip. */
  lemma StripKeeps(s: string, k: nat)
    requires k < |s| && !IsSpace(s[k])
    ensures exists m :: 0 <= m < |Strip(s)| && Strip(s)[m] == s[k]
  {
    TrimLeftKeeps(s, k);
    var l := TrimLeft(s);
    var m := k - (|s| - |l|);
    TrimRightKeeps(l, m);
    assert Strip(s)[m] == s[k];
  }

  /** The blank test the scripts write as `s.strip() == ""`. */
  lemma StripEmptyIffBlank(s: string)
    ensures Strip(s) == "" <==> AllSpace(s)
  {
    var l := TrimLeft(s);
    var d := |s| - |l|;
    if Strip(s) == "" {
      assert l[0..] == l;
      AllSpaceJoin(s[..d], l);
      assert s == s[..d] + l;
    }
    if AllSpace(s) {
      TrimLeftAllSpace(s);
      assert TrimRight(l) == [];
    }
  }

  lemma AllSpaceJoin(a: string, b: string)
    requires AllSpace(a) && AllSpace(b)
    ensures AllSpace(a + b)
  {
    forall k | 0 <= k < |a + b| ensures IsSpace((a + b)[k]) {
      if k < |a| {
        assert (a + b)[k] == a[k];
      } else {
        assert (a + b)[k] == b[k - |a|];
      }
    }
  }

  lemma {:induction false} TrimLeftAllSpace(s: string)
    requires AllSpace(s)
    ensures TrimLeft(s) == []
  {
    if s != [] {
      TrimLeftAllSpace(s[1..]);
    }
  }

  /** A string with no whitespace at either end is its own strip. */
  lemma StripNoEdgeSpace(s: string)
    requires s != [] ==> !IsSpace(s[0]) && !IsSpace(s[|s| - 1])
    ensures Strip(s) == s
  {
  }

  lemma StripIdempotent(s: string)
    ensures Strip(Strip(s)) == Strip(s)
  {
    StripEdges(s);
    StripNoEdgeSpace(Strip(s));
  }

  /** str.lower() on one character, for the ASCII capitals. */
  function LowerChar(c: char): char {
    if 'A' <= c <= 'Z' then (c as int + 32) as char else c
  }

  /** str.lower(), ASCII capitals only. */
  function Lower(s: string): string {
    if s == [] then [] else [LowerChar(s[0])] + Lower(s[1..])
  }

  lemma {:induction false} LowerAt(s: string)
    ensures |Lower(s)| == |s|
    ensures forall k :: 0 <= k < |s| ==> Lower(s)[k] == LowerChar(s[k])
  {
    if s != [] {
      LowerAt(s[1..]);
    }
  }

  lemma LowerIdempotent(s: string)
    ensures Lower(Lower(s)) == Lower(s)
  {
    LowerAt(s);
    LowerAt(Lower(s));
  }

  /** s.startswith(p) */
  predicate StartsWith(s: string, p: string) {
    |p| <= |s| && s[..|p|] == p
  }

  /** p in s */
  predicate Contains(s: string, p: string)
    decreases |s|
  {
    StartsWith(s, p) || (|s| > 0 && Contains(s[1..], p))
  }

  predicate OccursAt(s: string, p: string, i: int) {
    0 <= i <= |s| - |p| && s[i..i + |p|] == p
  }

  /** `p in s` holds exactly when p occurs at some position of s. */
  lemma {:induction false} ContainsIff(s: string, p: string)
    ensures Contains(s, p) <==> exists i :: OccursAt(s, p, i)
    decreases |s|
  {
    if StartsWith(s, p) {
      assert OccursAt(s, p, 0);
    } else if |s| > 0 {
      ContainsIff(s[1..], p);
      if exists i :: OccursAt(s, p, i) {
        var i :| OccursAt(s, p, i);
        assert i != 0;
        OccursShift(s, p, i - 1);
      }
      if Contains(s[1..], p) {
        var i :| OccursAt(s[1..], p, i);
        OccursShift(s, p, i);
      }
    }
  }

  /** Dropping the first character shifts every occurrence left by one. */
  lemma OccursShift(s: string, p: string, i: nat)
    requires |s| > 0
    ensures OccursAt(s[1..], p, i) <==> OccursAt(s, p, i + 1)
  {
    if i + 1 <= |s| - |p| {
      assert s[1..][i..i + |p|] == s[i + 1..i + 1 + |p|];
    }
  }

  /** s.replace(p, ""): every occurrence of p found scanning left to right
      without overlap is deleted. */
  function RemoveAll(s: string, p: string): (r: string)
    requires p != []
    ensures |r| <= |s|
    decreases |s|
  {
    if s == [] then []
    else if StartsWith(s, p) then RemoveAll(s[|p|..], p)
    else [s[0]] + RemoveAll(s[1..], p)
  }

  /** Removing a one-character pattern is filtering that character out. */
  lemma {:induction false} RemoveCharAppend(a: string, b: string, c: char)
    ensures RemoveAll(a + b, [c]) == RemoveAll(a, [c]) + RemoveAll(b, [c])
    decreases |a|
  {
    if a != [] {
      assert (a + b)[1..] == a[1..] + b;
      RemoveCharAppend(a[1..], b, c);
    } else {
      assert a + b == b;
    }
  }

  lemma {:induction false} RemoveCharGone(s: string, c: char)
    ensures c !in RemoveAll(s, [c])
    decreases |s|
  {
    if s != [] {
      RemoveCharGone(s[1..], c);
    }
  }

  /** A pattern whose first character does not occur in s removes nothing. */
  lemma {:induction false} RemoveAbsent(s: string, p: string)
    requires p != [] && p[0] !in s
    ensures RemoveAll(s, p) == s
    decreases |s|
  {
    if s != [] {
      assert s[0] != p[0];
      assert s[1..] == s[1..];
      assert forall k :: 0 <= k < |s[1..]| ==> s[1..][k] == s[k + 1];
      RemoveAbsent(s[1..], p);
      assert s == [s[0]] + s[1..];
    }
  }

  /** A leading occurrence of p is deleted. */
  lemma RemoveLeading(p: string, s: string)
    requires p != []
    ensures RemoveAll(p + s, p) == RemoveAll(s, p)
  {
    assert StartsWith(p + s, p);
    assert (p + s)[|p|..] == s;
  }

  /** Index of the first occurrence of c in s, or |s| when there is none. */
  function IndexOf(s: string, c: char): (i: nat)
    ensures i <= |s|
    ensures i < |s| ==> s[i] == c
    ensures c !in s[..i]
  {
    if s == [] then 0
    else if s[0] == c then 0
    else 1 + IndexOf(s[1..], c)
  }

  /** The first occurrence of c in a + b is b's first character when a has
      no c. */
  lemma {:induction false} IndexOfPast(a: string, b: string, c: char)
    requires c !in a && b != [] && b[0] == c
    ensures IndexOf(a + b, c) == |a|
    decreases |a|
  {
    if a != [] {
      assert (a + b)[1..] == a[1..] + b;
      IndexOfPast(a[1..], b, c);
    } else {
      assert a + b == b;
    }
  }

  /** s.split(sep, 1)[0]: the text before the first sep, or all of s. */
  function BeforeFirst(s: string, sep: char): (r: string)
    ensures sep !in r
    ensures StartsWith(s, r)
    ensures sep !in s ==> r == s
  {
    s[..IndexOf(s, sep)]
  }

  /** Concatenation is associative; stated once, generically, so that proofs
      about long texts need not rediscover it element by element. */
  lemma AppendAssoc<T>(a: seq<T>, b: seq<T>, c: seq<T>)
    ensures a + (b + c) == (a + b) + c
  {
  }
}
