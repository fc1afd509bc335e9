/** The OCI grammar of repository names, tags and digests (oci/names.go,
    oci/digest.go), as the regular expressions have it. */
module OciNames {
  import opened Wrappers

  const MAX_REPOSITORY_LENGTH := 255

  predicate LowerAlnum(c: char) { 'a' <= c <= 'z' || '0' <= c <= '9' }

  predicate IsRun(s: string) { s != "" && forall k :: 0 <= k < |s| ==> LowerAlnum(s[k]) }

  /** A dot, one or two underscores, or hyphens. */
  predicate IsSeparator(s: string) {
    s == "." || s == "_" || s == "__" || (s != "" && forall k :: 0 <= k < |s| ==> s[k] == '-')
  }

  /** A run, or a run and a separator before a component. */
  ghost predicate IsComponent(s: string)
    decreases |s|, 1
  {
    IsRun(s) || exists i, j :: ComponentSplit(s, i, j)
  }

  ghost predicate ComponentSplit(s: string, i: int, j: int)
    decreases |s|, 0
  {
    0 < i < j < |s| && IsRun(s[..i]) && IsSeparator(s[i..j]) && IsComponent(s[j..])
  }

  /** Components joined by slashes. */
  ghost predicate IsPath(s: string)
    decreases |s|, 1
  {
    IsComponent(s) || exists i :: PathSplit(s, i)
  }

  ghost predicate PathSplit(s: string, i: int)
    decreases |s|, 0
  {
    0 < i < |s| && s[i] == '/' && IsComponent(s[..i]) && IsPath(s[i + 1..])
  }

  /** ValidateRepository: whether it accepts. */
  predicate ValidRepository(name: string) {
    name != "" && |name| <= MAX_REPOSITORY_LENGTH && Matches(name)
  }

  // ---- The matcher and the grammar ----------------------------------------------------

  datatype At = Start | InRun | Dot | Under | UnderUnder | Dash | Dead

  function Step(m: At, c: char): At {
    if LowerAlnum(c) then (if m.Dead? then Dead else InRun)
    else match m
      case InRun => if c == '.' then Dot else if c == '_' then Under else if c == '-' then Dash else if c == '/' then Start else Dead
      case Under => if c == '_' then UnderUnder else Dead
      case Dash => if c == '-' then Dash else Dead
      case _ => Dead
  }

  function Go(m: At, s: string): At
    decreases |s|
  {
    if s == "" then m else Go(Step(m, s[0]), s[1..])
  }

  /** The repository expression, matched in one pass. */
  predicate Matches(s: string) { Go(Start, s) == InRun }

  lemma {:induction false} GoJoin(m: At, a: string, b: string)
    ensures Go(m, a + b) == Go(Go(m, a), b)
    decreases |a|
  {
    if a == "" {
      assert a + b == b;
    } else {
      assert (a + b)[1..] == a[1..] + b;
      GoJoin(Step(m, a[0]), a[1..], b);
    }
  }

  lemma {:induction false} GoRun(m: At, s: string)
    requires IsRun(s) && !m.Dead?
    ensures Go(m, s) == InRun
    decreases |s|
  {
    if |s| > 1 { GoRun(InRun, s[1..]); } else { assert s[1..] == ""; }
  }

  lemma {:induction false} GoDashes(s: string)
    requires forall k :: 0 <= k < |s| ==> s[k] == '-'
    ensures Go(Dash, s) == Dash
  {
    if s != "" { GoDashes(s[1..]); }
  }

  lemma {:induction false} GoSeparator(s: string)
    requires IsSeparator(s)
    ensures !Go(InRun, s).Dead?
  {
    assert s[1..] == "" || s == "__" || forall k :: 0 <= k < |s| ==> s[k] == '-';
    if s == "__" {
      assert s[1..] == "_" && s[1..][1..] == "";
      assert Go(InRun, s) == Go(Under, s[1..]) == Go(UnderUnder, s[1..][1..]);
    } else if s[0] == '-' {
      GoDashes(s[1..]);
    }
  }

  lemma {:induction false} GoComponent(m: At, s: string)
    requires IsComponent(s) && !m.Dead?
    ensures Go(m, s) == InRun
    decreases |s|
  {
    if IsRun(s) {
      GoRun(m, s);
    } else {
      var i, j :| ComponentSplit(s, i, j);
      var a, b, c := s[..i], s[i..j], s[j..];
      assert s == a + b + c && IsRun(a) && IsSeparator(b) && IsComponent(c);
      hide Go, IsRun, IsSeparator, IsComponent;
      GoRun(m, a);
      GoSeparator(b);
      GoComponent(Go(InRun, b), c);
      GoJoin(m, a, b);
      GoJoin(m, a + b, c);
    }
  }

  lemma {:induction false} GoPath(s: string)
    requires IsPath(s)
    ensures Matches(s)
    decreases |s|
  {
    if IsComponent(s) {
      GoComponent(Start, s);
    } else {
      var i :| PathSplit(s, i);
      GoPath(s[i + 1..]);
      assert Step(InRun, '/') == Start;
      assert Go(InRun, "/") == Go(Start, ""[..]) == Start;
      hide Go, IsComponent, IsPath;
      GoComponent(Start, s[..i]);
      GoJoin(Start, s[..i], "/");
      GoJoin(Start, s[..i] + "/", s[i + 1..]);
      assert s == s[..i] + "/" + s[i + 1..];
    }
  }

  /** A run and a separator can stand before any path. */
  lemma {:induction false} Prepend(r: string, p: string, x: string)
    requires IsRun(r) && IsSeparator(p) && IsPath(x)
    ensures IsPath(r + p + x)
  {
    var s := r + p + x;
    assert s[..|r|] == r && s[|r|..|r| + |p|] == p && s[|r| + |p|..] == x;
    if IsComponent(x) {
      assert p != "" && (x != "" ==> ComponentSplit(s, |r|, |r| + |p|));
      ComponentChars(x);
    } else {
      var i :| PathSplit(x, i);
      var c := r + p + x[..i];
      ComponentChars(x[..i]);
      assert c[..|r|] == r && c[|r|..|r| + |p|] == p && c[|r| + |p|..] == x[..i];
      assert ComponentSplit(c, |r|, |r| + |p|);
      var k := |r| + |p| + i;
      assert s[..k] == c && s[k] == '/' && s[k + 1..] == x[i + 1..];
      assert PathSplit(s, k);
    }
  }

  /** What is left after a run. */
  lemma {:induction false} AfterRun(r: string, s: string)
    requires IsRun(r) && Go(InRun, s) == InRun
    ensures IsPath(r + s)
    decreases |s|, 1
  {
    if s == "" {
      assert r + s == r;
    } else {
      assert r + s == r + [s[0]] + s[1..];
      if LowerAlnum(s[0]) {
        AfterRun(r + [s[0]], s[1..]);
      } else if s[0] == '/' {
        FromStart(s[1..]);
        var x := r + s;
        assert x[..|r|] == r && x[|r|] == '/' && x[|r| + 1..] == s[1..];
        assert PathSplit(x, |r|);
      } else {
        GoDead(s[1..]);
        AfterSeparator(r, [s[0]], s[1..], Step(InRun, s[0]));
      }
    }
  }

  predicate Separating(p: string, m: At) {
    || (p == "." && m == Dot) || (p == "_" && m == Under) || (p == "__" && m == UnderUnder)
    || (p != "" && (forall k :: 0 <= k < |p| ==> p[k] == '-') && m == Dash)
  }

  lemma {:induction false} AfterSeparator(r: string, p: string, s: string, m: At)
    requires IsRun(r) && Separating(p, m) && Go(m, s) == InRun
    ensures IsPath(r + p + s)
    decreases |s|, 2
  {
    if LowerAlnum(s[0]) {
      AfterRun([s[0]], s[1..]);
      assert s == [s[0]] + s[1..];
      Prepend(r, p, s);
    } else {
      GoDead(s[1..]);
      assert Separating(p + [s[0]], Step(m, s[0]));
      AfterSeparator(r, p + [s[0]], s[1..], Step(m, s[0]));
      assert r + p + s == r + (p + [s[0]]) + s[1..];
    }
  }

  lemma {:induction false} GoDead(s: string)
    ensures Go(Dead, s) == Dead
  {
    if s != "" { GoDead(s[1..]); }
  }

  lemma {:induction false} FromStart(s: string)
    requires Matches(s)
    ensures IsPath(s)
    decreases |s|, 2
  {
    if !LowerAlnum(s[0]) { GoDead(s[1..]); }
    AfterRun([s[0]], s[1..]);
    assert s == [s[0]] + s[1..];
  }

  /** The matcher accepts exactly the grammar. */
  lemma {:induction false} MatcherIsGrammar(s: string)
    ensures Matches(s) <==> IsPath(s)
  {
    if Matches(s) { FromStart(s); }
    if IsPath(s) { GoPath(s); }
  }

  // ---- Characters and lengths, written out ---------------------------------------------

  const LOWER := "abcdefghijklmnopqrstuvwxyz"
  const UPPER := "ABCDEFGHIJKLMNOPQRSTUVWXYZ"
  const DIGITS := "0123456789"

  lemma {:induction false} LowerLetters(c: char)
    ensures c in LOWER <==> 'a' <= c <= 'z'
  {
    assert 'a' <= c <= 'z' ==> LOWER[c as int - 'a' as int] == c;
  }

  lemma {:induction false} HexLetters(c: char)
    ensures c in "abcdef" <==> 'a' <= c <= 'f'
  {
    assert 'a' <= c <= 'f' ==> "abcdef"[c as int - 'a' as int] == c;
  }

  lemma {:induction false} UpperLetters(c: char)
    ensures c in UPPER <==> 'A' <= c <= 'Z'
  {
    assert 'A' <= c <= 'Z' ==> UPPER[c as int - 'A' as int] == c;
  }

  lemma {:induction false} DigitLetters(c: char)
    ensures c in DIGITS <==> '0' <= c <= '9'
  {
    assert '0' <= c <= '9' ==> DIGITS[c as int - '0' as int] == c;
  }

  ghost predicate Word(c: char) { c in LOWER || c in UPPER || c in DIGITS || c == '_' }

  lemma {:induction false} CharClasses(c: char)
    ensures LowerAlnum(c) <==> c in LOWER || c in DIGITS
    ensures TagStart(c) <==> Word(c)
    ensures TagChar(c) <==> Word(c) || c == '.' || c == '-'
    ensures Hex(c) <==> c in "abcdef" || c in DIGITS
  {
    LowerLetters(c);
    HexLetters(c);
    UpperLetters(c);
    DigitLetters(c);
    hide LOWER, UPPER, DIGITS;
  }

  lemma {:induction false} TagClasses(c: char)
    ensures TagStart(c) <==> Word(c)
    ensures TagChar(c) <==> TagStart(c) || c == '.' || c == '-'
  {
    CharClasses(c);
    hide Word;
  }

  /** A name is at most 255 characters of lower-case components joined by slashes. */
  lemma {:induction false} RepositoryShape(s: string)
    ensures ValidRepository(s) <==> 1 <= |s| <= 255 && IsPath(s)
    ensures ValidRepository(s) ==> forall k :: 0 <= k < |s| ==> s[k] in LOWER || s[k] in DIGITS || s[k] in "._-/"
  {
    MatcherIsGrammar(s);
    if ValidRepository(s) {
      PathChars(s);
      hide IsPath, Go, Step;
      forall k | 0 <= k < |s| ensures s[k] in LOWER || s[k] in DIGITS || s[k] in "._-/" {
        assert NameChar(s[k]);
        CharClasses(s[k]);
      }
    }
  }

  /** A tag is a word character and up to 127 word characters, dots and hyphens. */
  lemma {:induction false} TagShape(s: string)
    ensures ValidTag(s) <==>
      && 1 <= |s| <= 128 && Word(s[0])
      && forall k :: 1 <= k < |s| ==> Word(s[k]) || s[k] == '.' || s[k] == '-'
  {
    hide TagStart, TagChar, Word;
    forall k | 0 <= k < |s|
      ensures (TagStart(s[k]) <==> Word(s[k])) && (TagChar(s[k]) <==> Word(s[k]) || s[k] == '.' || s[k] == '-') {
      TagClasses(s[k]);
    }
  }

  predicate TagStart(c: char) { 'a' <= c <= 'z' || 'A' <= c <= 'Z' || '0' <= c <= '9' || c == '_' }

  predicate TagChar(c: char) { TagStart(c) || c == '.' || c == '-' }

  predicate ValidTag(tag: string) {
    0 < |tag| <= 128 && TagStart(tag[0]) && forall k :: 0 <= k < |tag| ==> TagChar(tag[k])
  }

  predicate Hex(c: char) { 'a' <= c <= 'f' || '0' <= c <= '9' }

  /** The first position of a character. */
  function Find(s: string, c: char): (r: Option<nat>)
    ensures r.Some? ==> r.value < |s| && s[r.value] == c && c !in s[..r.value]
    ensures r.None? <==> c !in s
  {
    if s == "" then None
    else if s[0] == c then Some(0)
    else
      var rest := Find(s[1..], c);
      if rest.None? then None
      else
        assert s[..rest.value + 1] == [s[0]] + s[1..][..rest.value];
        Some(rest.value + 1)
  }

  /** The last position of a character. */
  function FindLast(s: string, c: char): (r: Option<nat>)
    ensures r.Some? ==> r.value < |s| && s[r.value] == c && c !in s[r.value + 1..]
    ensures r.None? <==> c !in s
  {
    if s == "" then None
    else if s[|s| - 1] == c then Some(|s| - 1)
    else
      var head := s[..|s| - 1];
      assert s == head + [s[|s| - 1]];
      var r := FindLast(head, c);
      assert r.Some? ==> s[r.value + 1..] == head[r.value + 1..] + [s[|s| - 1]];
      r
  }

  predicate ValidHex(s: string) { |s| == 64 && forall k :: 0 <= k < |s| ==> Hex(s[k]) }

  /** ParseDigest: whether it accepts. */
  predicate ValidDigest(s: string) {
    var i := Find(s, ':');
    i.Some? && i.value > 0 && s[..i.value] == "sha256" && ValidHex(s[i.value + 1..])
  }

  lemma {:induction false} FindUnique(s: string, c: char, i: nat)
    requires i < |s| && s[i] == c && c !in s[..i]
    ensures Find(s, c) == Some(i)
  {
    if i > 0 {
      assert s[0] == s[..i][0] && s[1..][..i - 1] == s[..i][1..];
      FindUnique(s[1..], c, i - 1);
    }
  }

  lemma {:induction false} FindLastUnique(s: string, c: char, i: nat)
    requires i < |s| && s[i] == c && c !in s[i + 1..]
    ensures FindLast(s, c) == Some(i)
  {
    var last := |s| - 1;
    if i < last {
      assert s[last] == s[i + 1..][last - i - 1] && s[..last][i + 1..] == s[i + 1..][..last - i - 1];
      FindLastUnique(s[..last], c, i);
    }
  }

  lemma {:induction false} DigestShape(s: string)
    ensures ValidDigest(s) <==> |s| == 71 && s[..7] == "sha256:" && ValidHex(s[7..])
  {
    var shape := |s| == 71 && s[..7] == "sha256:" && ValidHex(s[7..]);
    if shape {
      assert forall k :: 0 <= k < 7 ==> s[k] == s[..7][k];
      assert s[..6] == "sha256";
      FindUnique(s, ':', 6);
    }
    if ValidDigest(s) {
      assert Find(s, ':') == Some(6);
      assert s[..7] == s[..6] + [s[6]];
    }
  }

  predicate AlgorithmSeparator(c: char) { c == '+' || c == '.' || c == '_' || c == '-' }

  /** Runs of lower-case letters and digits joined by single separators. */
  predicate IsAlgorithm(s: string) {
    && s != "" && LowerAlnum(s[0]) && LowerAlnum(s[|s| - 1])
    && forall k :: 0 <= k < |s| - 1 ==> LowerAlnum(s[k]) || (AlgorithmSeparator(s[k]) && LowerAlnum(s[k + 1]))
  }

  predicate EncodedChar(c: char) {
    'a' <= c <= 'z' || 'A' <= c <= 'Z' || '0' <= c <= '9' || c == '=' || c == '_' || c == '-'
  }

  /** IsDigest: a reference of the shape algorithm:encoded, any algorithm. */
  predicate IsDigest(s: string) {
    var i := Find(s, ':');
    i.Some? && IsAlgorithm(s[..i.value]) && i.value + 1 < |s|
    && forall k :: i.value < k < |s| ==> EncodedChar(s[k])
  }

  lemma {:induction false} DigestsAreDigests(s: string)
    requires ValidDigest(s)
    ensures IsDigest(s)
  {
    var i := Find(s, ':').value;
    var a, h := s[..i], s[i + 1..];
    assert a == "sha256" && ValidHex(h);
    hide Find, ValidDigest;
    assert forall k :: 0 <= k < |a| ==> LowerAlnum(a[k]);
    assert forall k :: 0 <= k < |h| ==> EncodedChar(h[k]);
    assert forall k :: i < k < |s| ==> s[k] == h[k - i - 1];
  }

  /** No reference is both a digest and a tag, and every digest is taken for one. */
  lemma {:induction false} DigestsAreNotTags(s: string)
    ensures ValidDigest(s) ==> IsDigest(s)
    ensures ValidTag(s) ==> !IsDigest(s)
  {
    hide ValidDigest;
    if ValidDigest(s) { DigestsAreDigests(s); }
    if ValidTag(s) { TagChars(s); }
  }

  predicate NameChar(c: char) { LowerAlnum(c) || c == '.' || c == '_' || c == '-' || c == '/' }

  predicate NameChars(s: string) { forall k :: 0 <= k < |s| ==> NameChar(s[k]) }

  lemma {:induction false} JoinChars(a: string, b: string)
    requires NameChars(a) && NameChars(b)
    ensures NameChars(a + b)
  {
  }

  lemma {:induction false} SeparatorChars(s: string)
    requires IsSeparator(s)
    ensures NameChars(s)
  {
  }

  lemma {:induction false} ComponentChars(s: string)
    requires IsComponent(s)
    ensures s != "" && NameChars(s)
    decreases |s|
  {
    if !IsRun(s) {
      var i, j :| ComponentSplit(s, i, j);
      SeparatorChars(s[i..j]);
      ComponentChars(s[j..]);
      assert NameChars(s[..i]);
      hide IsComponent, NameChars;
      JoinChars(s[..i], s[i..j]);
      JoinChars(s[..i] + s[i..j], s[j..]);
      assert s == s[..i] + s[i..j] + s[j..];
    }
  }

  lemma {:induction false} PathChars(s: string)
    requires IsPath(s)
    ensures s != "" && NameChars(s)
    decreases |s|
  {
    if IsComponent(s) {
      ComponentChars(s);
    } else {
      var i :| PathSplit(s, i);
      assert NameChars("/");
      hide IsComponent, IsPath, NameChars;
      ComponentChars(s[..i]);
      PathChars(s[i + 1..]);
      JoinChars(s[..i], "/");
      JoinChars(s[..i] + "/", s[i + 1..]);
      assert s == s[..i] + "/" + s[i + 1..];
    }
  }

  /** A valid name has neither ':' nor '@', so it can stand in a reference name. */
  lemma {:induction false} RepositoryChars(name: string)
    requires ValidRepository(name)
    ensures ':' !in name && '@' !in name
  {
    MatcherIsGrammar(name);
    PathChars(name);
  }

  lemma {:induction false} TagChars(tag: string)
    requires ValidTag(tag)
    ensures '/' !in tag && ':' !in tag
  {
  }

  lemma {:induction false} DigestChars(d: string)
    requires ValidDigest(d)
    ensures '/' !in d && |d| == 71
  {
    DigestShape(d);
    assert d == d[..7] + d[7..];
    assert forall k :: 0 <= k < 7 ==> d[k] == "sha256:"[k];
    assert forall k :: 0 <= k < |d[7..]| ==> d[7..][k] != '/';
  }
}
