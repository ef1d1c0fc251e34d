/** The pure arithmetic and string handling inside the functions the bot
    exposes to scripts: the bound of `random`, the post-processing of the
    title `get_title` returns and the utterance cap of `luis_predict`.
    Strings are byte strings, one character per byte. */
module Library {
  import opened Wrappers
  import opened LuaValues

  // ---------------------------------------------------------------------
  // random
  // ---------------------------------------------------------------------

  datatype RandomError = NonPositiveBound(bound: int)

  /** `random(n)`: `draw` stands for the uniform value in [0, n) that the
      system's randomness source yields; the script receives it plus one.
      A bound below 1 (including a non-number argument, read as 0) is an
      error, as the randomness source refuses it. */
  function Random(arg: LValue, draw: int): (r: Result<int, RandomError>)
    requires ToInt(arg) > 0 ==> 0 <= draw < ToInt(arg)
    ensures r.Failure? <==> ToInt(arg) <= 0
    ensures r.Success? ==> 1 <= r.value <= ToInt(arg)
  {
    var n := ToInt(arg);
    if n <= 0 then Failure(NonPositiveBound(n)) else Success(draw + 1)
  }

  /** Every value from 1 to n can come out of `random(n)`, each from
      exactly one draw. */
  lemma RandomCoversRange(n: int, k: int)
    requires 1 <= k <= n
    ensures Random(LNumber(n), k - 1) == Success(k)
    ensures forall draw :: 0 <= draw < n && Random(LNumber(n), draw) == Success(k) ==> draw == k - 1
  {
  }

  // ---------------------------------------------------------------------
  // Truncation
  // ---------------------------------------------------------------------

  const MaxTitleLength: nat := 400
  const MaxUtteranceLength: nat := 500

  /** The first `n` bytes of `s`, or all of `s` when it is shorter. */
  function Truncate(s: string, n: nat): (r: string)
    ensures r <= s
    ensures |r| <= n
    ensures |s| <= n ==> r == s
    ensures |s| > n ==> |r| == n
  {
    if |s| > n then s[..n] else s
  }

  /** The utterance `luis_predict` sends: at most 500 bytes of it. */
  function LuisUtterance(u: string): (r: string)
    ensures |r| <= MaxUtteranceLength && r <= u
    ensures r == u <==> |u| <= MaxUtteranceLength
    ensures |u| > MaxUtteranceLength ==> r == u[..MaxUtteranceLength]
  {
    Truncate(u, MaxUtteranceLength)
  }

  // ---------------------------------------------------------------------
  // Title normalisation
  // ---------------------------------------------------------------------

  /** ASCII white space as the trimming function knows it. */
  predicate IsSpace(c: char)
  {
    c == ' ' || c == '\t' || c == '\n' || c == '\r' || c == '\U{000B}' || c == '\U{000C}'
  }

  predicate IsLineBreakOrTab(c: char)
  {
    c == '\n' || c == '\t'
  }

  /** `s` with every newline and tab removed. */
  function StripNewlinesTabs(s: string): (r: string)
    ensures |r| <= |s|
    ensures forall i :: 0 <= i < |r| ==> !IsLineBreakOrTab(r[i])
    decreases |s|
  {
    if s == [] then []
    else if IsLineBreakOrTab(s[0]) then StripNewlinesTabs(s[1..])
    else [s[0]] + StripNewlinesTabs(s[1..])
  }

  /** A single byte is dropped iff it is a newline or a tab. */
  lemma StripOne(c: char)
    ensures IsLineBreakOrTab(c) ==> StripNewlinesTabs([c]) == []
    ensures !IsLineBreakOrTab(c) ==> StripNewlinesTabs([c]) == [c]
  {
    assert [c][1..] == [];
  }

  /** Stripping works byte by byte: it distributes over concatenation, so
      together with `StripOne` it keeps every other byte, in order. */
  lemma {:induction false} StripAppend(a: string, b: string)
    ensures StripNewlinesTabs(a + b) == StripNewlinesTabs(a) + StripNewlinesTabs(b)
    decreases |a|
  {
    if a == [] {
      assert a + b == b;
    } else {
      assert (a + b)[0] == a[0];
      assert (a + b)[1..] == a[1..] + b;
      StripAppend(a[1..], b);
      var head := if IsLineBreakOrTab(a[0]) then [] else [a[0]];
      assert StripNewlinesTabs(a + b) == head + StripNewlinesTabs(a[1..] + b);
      assert StripNewlinesTabs(a) == head + StripNewlinesTabs(a[1..]);
      assert head + (StripNewlinesTabs(a[1..]) + StripNewlinesTabs(b))
          == (head + StripNewlinesTabs(a[1..])) + StripNewlinesTabs(b);
    }
  }

  /** A string without newlines or tabs is left as it is. */
  lemma {:induction false} StripKeepsClean(s: string)
    requires forall i :: 0 <= i < |s| ==> !IsLineBreakOrTab(s[i])
    ensures StripNewlinesTabs(s) == s
    decreases |s|
  {
    if s != [] {
      StripKeepsClean(s[1..]);
    }
  }

  /** The index of the first byte at or after `i` that is not white
      space, or |s| when there is none. */
  function SkipSpaces(s: string, i: nat): (j: nat)
    requires i <= |s|
    ensures i <= j <= |s|
    ensures forall k :: i <= k < j ==> IsSpace(s[k])
    ensures j == |s| || !IsSpace(s[j])
    decreases |s| - i
  {
    if i < |s| && IsSpace(s[i]) then SkipSpaces(s, i + 1) else i
  }

  /** The length of the first `n` bytes of `s` once their trailing white
      space is dropped. */
  function BackSpaces(s: string, n: nat): (m: nat)
    requires n <= |s|
    ensures m <= n
    ensures forall k :: m <= k < n ==> IsSpace(s[k])
    ensures m == 0 || !IsSpace(s[m - 1])
    decreases n
  {
    if n > 0 && IsSpace(s[n - 1]) then BackSpaces(s, n - 1) else n
  }

  /** `s` without its leading white space. */
  function TrimLeft(s: string): (r: string)
    ensures |r| <= |s| && r == s[|s| - |r|..]
    ensures forall i :: 0 <= i < |s| - |r| ==> IsSpace(s[i])
    ensures r == [] || !IsSpace(r[0])
  {
    s[SkipSpaces(s, 0)..]
  }

  /** `s` without its trailing white space. */
  function TrimRight(s: string): (r: string)
    ensures |r| <= |s| && r == s[..|r|]
    ensures forall i :: |r| <= i < |s| ==> IsSpace(s[i])
    ensures r == [] || !IsSpace(r[|r| - 1])
  {
    s[..BackSpaces(s, |s|)]
  }

  /** `s` without surrounding white space. */
  function TrimSpace(s: string): (r: string)
    ensures |r| <= |s|
  {
    TrimRight(TrimLeft(s))
  }

  /** The trimmed string is the largest piece of `s` that neither starts
      nor ends with white space: everything cut off is white space. */
  lemma TrimSpaceIsMaximalPiece(s: string)
    ensures var r := TrimSpace(s); r == [] || (!IsSpace(r[0]) && !IsSpace(r[|r| - 1]))
    ensures var r := TrimSpace(s); var start := |s| - |TrimLeft(s)|;
      && start + |r| <= |s|
      && r == s[start..start + |r|]
      && (forall i :: 0 <= i < start ==> IsSpace(s[i]))
      && (forall i :: start + |r| <= i < |s| ==> IsSpace(s[i]))
  {
    TrimSpaceEnds(s);
    TrimSpacePiece(s);
  }

  lemma TrimSpaceEnds(s: string)
    ensures var r := TrimSpace(s); r == [] || (!IsSpace(r[0]) && !IsSpace(r[|r| - 1]))
  {
    var l := TrimLeft(s);
    var r := TrimRight(l);
    assert r == l[..|r|];
    assert r != [] ==> r[0] == l[0];
  }

  lemma TrimSpacePiece(s: string)
    ensures var r := TrimSpace(s); var start := |s| - |TrimLeft(s)|;
      && start + |r| <= |s|
      && r == s[start..start + |r|]
      && (forall i :: 0 <= i < start ==> IsSpace(s[i]))
      && (forall i :: start + |r| <= i < |s| ==> IsSpace(s[i]))
  {
    TrimSpaceSlice(s);
    TrimSpaceTrailCut(s);
  }

  lemma TrimSpaceSlice(s: string)
    ensures var r := TrimSpace(s); var start := |s| - |TrimLeft(s)|;
      start + |r| <= |s| && r == s[start..start + |r|]
  {
    var l := TrimLeft(s);
    var r := TrimRight(l);
    PrefixOfSuffix(s, |s| - |l|, |r|);
  }

  lemma TrimSpaceTrailCut(s: string)
    ensures var r := TrimSpace(s); var start := |s| - |TrimLeft(s)|;
      forall i :: start + |r| <= i < |s| ==> IsSpace(s[i])
  {
    var l := TrimLeft(s);
    var r := TrimRight(l);
    CutFromSuffix(s, |s| - |l|, l, |r|);
  }

  /** Trimming a string without newlines or tabs leaves none behind. */
  lemma TrimKeepsClean(s: string)
    requires forall i :: 0 <= i < |s| ==> !IsLineBreakOrTab(s[i])
    ensures forall i :: 0 <= i < |TrimSpace(s)| ==> !IsLineBreakOrTab(TrimSpace(s)[i])
  {
    TrimSpaceSlice(s);
    var r := TrimSpace(s);
    var start := |s| - |TrimLeft(s)|;
    assert forall i :: 0 <= i < |r| ==> r[i] == s[start + i];
  }

  /** A prefix of a suffix of `s` is a slice of `s`. */
  lemma PrefixOfSuffix(s: string, start: nat, k: nat)
    requires start + k <= |s|
    ensures s[start..][..k] == s[start..start + k]
  {
  }

  /** What is cut from the end of a suffix of `s` is cut from `s`. */
  lemma CutFromSuffix(s: string, start: nat, l: string, k: nat)
    requires start <= |s| && l == s[start..]
    requires k <= |l|
    requires forall j :: k <= j < |l| ==> IsSpace(l[j])
    ensures forall i :: start + k <= i < |s| ==> IsSpace(s[i])
  {
    forall i | start + k <= i < |s| ensures IsSpace(s[i]) {
      assert l[i - start] == s[i];
    }
  }

  lemma TrimSpaceKeepsInterior(s: string)
    requires s == [] || (!IsSpace(s[0]) && !IsSpace(s[|s| - 1]))
    ensures TrimSpace(s) == s
  {
    assert TrimLeft(s) == s;
  }

  /** The title text returned to the script: newlines and tabs removed,
      surrounding white space trimmed, then cut to 400 bytes. */
  function NormalizeTitle(raw: string): (t: string)
    ensures |t| <= MaxTitleLength
    ensures t <= TrimSpace(StripNewlinesTabs(raw))
    ensures |TrimSpace(StripNewlinesTabs(raw))| <= MaxTitleLength ==> t == TrimSpace(StripNewlinesTabs(raw))
    ensures |TrimSpace(StripNewlinesTabs(raw))| > MaxTitleLength ==> |t| == MaxTitleLength
    ensures forall i :: 0 <= i < |t| ==> !IsLineBreakOrTab(t[i])
    ensures t == [] || !IsSpace(t[0])
    ensures |TrimSpace(StripNewlinesTabs(raw))| <= MaxTitleLength ==> t == [] || !IsSpace(t[|t| - 1])
  {
    var stripped := StripNewlinesTabs(raw);
    TitleShape(stripped);
    Truncate(TrimSpace(stripped), MaxTitleLength)
  }

  /** Cutting the trimmed text keeps it free of newlines and tabs and
      starting with a non-space byte; an uncut text also ends with one. */
  lemma TitleShape(stripped: string)
    requires forall i :: 0 <= i < |stripped| ==> !IsLineBreakOrTab(stripped[i])
    ensures var trimmed := TrimSpace(stripped); var t := Truncate(trimmed, MaxTitleLength);
      && (forall i :: 0 <= i < |t| ==> !IsLineBreakOrTab(t[i]))
      && (t == [] || !IsSpace(t[0]))
      && (|trimmed| <= MaxTitleLength ==> t == [] || !IsSpace(t[|t| - 1]))
  {
    TrimSpaceEnds(stripped);
    TrimKeepsClean(stripped);
    var trimmed := TrimSpace(stripped);
    var t := Truncate(trimmed, MaxTitleLength);
    assert forall i :: 0 <= i < |t| ==> t[i] == trimmed[i];
  }

  /** `get_title` after the page has been read: no title text gives nil;
      any title text, even one that normalises to nothing, gives a string. */
  function GetTitle(rawTitle: string): (r: Option<string>)
    ensures r.None? <==> rawTitle == []
    ensures r.Some? ==> r.value == NormalizeTitle(rawTitle)
  {
    if |rawTitle| == 0 then None else Some(NormalizeTitle(rawTitle))
  }

  /** Trimming comes before the 400-byte cut, so a long title whose 400th
      byte is a space comes back with trailing white space. */
  lemma TruncationCanExposeSpace(raw: string)
    requires |raw| > MaxTitleLength
    requires forall i :: 0 <= i < |raw| ==> !IsLineBreakOrTab(raw[i])
    requires !IsSpace(raw[0]) && !IsSpace(raw[|raw| - 1])
    requires raw[MaxTitleLength - 1] == ' '
    ensures var t := NormalizeTitle(raw); |t| == MaxTitleLength && IsSpace(t[|t| - 1])
  {
    StripKeepsClean(raw);
    TrimSpaceKeepsInterior(raw);
  }
}
