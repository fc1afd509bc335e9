/** Reference names of tags, manifests and referrers (image/refs.go), and the
    listings that scan them by prefix (image/list.go). */
module RefNames {
  import opened Wrappers
  import opened OciNames
  import ByteOrder

  const TAG_PREFIX := "oci/tag/"
  const MANIFEST_PREFIX := "oci/manifest/"
  const REFERRER_PREFIX := "oci/referrer/"

  function TagRef(repo: string, tag: string): string { TAG_PREFIX + repo + ":" + tag }

  function ManifestRef(repo: string, d: string): string { MANIFEST_PREFIX + repo + "/" + d }

  function ReferrerRef(repo: string, subject: string, referrer: string): string {
    REFERRER_PREFIX + repo + "/" + subject + "/" + referrer
  }

  function CutPrefix(s: string, p: string): Option<string> {
    if p <= s then Some(s[|p|..]) else None
  }

  /** Cuts at the first colon; neither part may be empty. */
  function CutFirst(s: string): Option<(string, string)> {
    var i := Find(s, ':');
    if i.None? || i.value == 0 || i.value + 1 == |s| then None else Some((s[..i.value], s[i.value + 1..]))
  }

  function ParseTagRef(name: string): Option<(string, string)> {
    var rest := CutPrefix(name, TAG_PREFIX);
    if rest.None? then None
    else
      var cut := CutFirst(rest.value);
      if cut.Some? && ValidRepository(cut.value.0) && ValidTag(cut.value.1) then cut else None
  }

  /** Cuts at the last slash, which must not be the first character. */
  function CutLast(s: string): Option<(string, string)> {
    var i := FindLast(s, '/');
    if i.None? || i.value == 0 then None else Some((s[..i.value], s[i.value + 1..]))
  }

  function ParseManifestRef(name: string): Option<(string, string)> {
    var rest := CutPrefix(name, MANIFEST_PREFIX);
    if rest.None? then None
    else
      var cut := CutLast(rest.value);
      if cut.Some? && ValidDigest(cut.value.1) && ValidRepository(cut.value.0) then cut else None
  }

  function ParseReferrerRef(name: string): Option<(string, string, string)> {
    var rest := CutPrefix(name, REFERRER_PREFIX);
    if rest.None? then None
    else
      var cut := CutLast(rest.value);
      if cut.None? || !ValidDigest(cut.value.1) then None
      else
        var (head, referrer) := cut.value;
        var cut2 := CutLast(head);
        if cut2.None? || !ValidDigest(cut2.value.1) || !ValidRepository(cut2.value.0) then None
        else Some((cut2.value.0, cut2.value.1, referrer))
  }

  // ---- Printing and parsing are inverse -------------------------------------------------

  lemma {:induction false} CutBack(p: string, s: string)
    ensures CutPrefix(p + s, p) == Some(s)
  {
    assert (p + s)[|p|..] == s;
  }

  lemma {:induction false} Cuts(s: string, p: string)
    ensures CutPrefix(s, p).Some? ==> p + CutPrefix(s, p).value == s
  {
    if p <= s { assert s == s[..|p|] + s[|p|..]; }
  }

  lemma {:induction false} SplitBack(a: string, c: char, b: string)
    ensures (a + [c] + b)[..|a|] == a && (a + [c] + b)[|a|] == c && (a + [c] + b)[|a| + 1..] == b
  {
  }

  lemma {:induction false} CutLastBack(a: string, b: string)
    requires a != "" && '/' !in b
    ensures CutLast(a + "/" + b) == Some((a, b))
  {
    SplitBack(a, '/', b);
    FindLastUnique(a + ['/'] + b, '/', |a|);
  }

  lemma {:induction false} CutLastJoins(s: string)
    requires CutLast(s).Some?
    ensures CutLast(s).value.0 + "/" + CutLast(s).value.1 == s
  {
  }

  lemma {:induction false} CutFirstBack(a: string, b: string)
    requires a != "" && b != "" && ':' !in a
    ensures CutFirst(a + ":" + b) == Some((a, b))
  {
    SplitBack(a, ':', b);
    FindUnique(a + [':'] + b, ':', |a|);
  }

  lemma {:induction false} CutFirstJoins(s: string)
    requires CutFirst(s).Some?
    ensures CutFirst(s).value.0 + ":" + CutFirst(s).value.1 == s
  {
  }

  /** A tag reference parses back exactly when its parts are valid. */
  lemma {:induction false} TagRefParses(repo: string, tag: string)
    ensures ValidRepository(repo) && ValidTag(tag) <==> ParseTagRef(TagRef(repo, tag)) == Some((repo, tag))
  {
    if ValidRepository(repo) && ValidTag(tag) {
      RepositoryChars(repo);
      assert repo != "" && tag != "";
      hide ValidRepository, ValidTag, CutFirst;
      var rest := repo + ":" + tag;
      assert TagRef(repo, tag) == TAG_PREFIX + rest;
      CutBack(TAG_PREFIX, rest);
      CutFirstBack(repo, tag);
    }
  }

  lemma {:induction false} TagRefPrints(name: string)
    ensures ParseTagRef(name).Some? ==>
      var (repo, tag) := ParseTagRef(name).value;
      TagRef(repo, tag) == name && ValidRepository(repo) && ValidTag(tag)
  {
    hide ValidRepository, ValidTag, CutFirst;
    Cuts(name, TAG_PREFIX);
    if ParseTagRef(name).Some? {
      var rest := CutPrefix(name, TAG_PREFIX).value;
      hide CutPrefix;
      CutFirstJoins(rest);
      var (repo, tag) := CutFirst(rest).value;
      assert TagRef(repo, tag) == TAG_PREFIX + (repo + ":" + tag);
    }
  }

  lemma {:induction false} ManifestRefParses(repo: string, d: string)
    ensures ValidRepository(repo) && ValidDigest(d) <==> ParseManifestRef(ManifestRef(repo, d)) == Some((repo, d))
  {
    if ValidRepository(repo) && ValidDigest(d) {
      DigestChars(d);
      assert repo != "";
      hide ValidRepository, ValidDigest, CutLast;
      var rest := repo + "/" + d;
      assert ManifestRef(repo, d) == MANIFEST_PREFIX + rest;
      CutBack(MANIFEST_PREFIX, rest);
      CutLastBack(repo, d);
    }
  }

  lemma {:induction false} ManifestRefPrints(name: string)
    ensures ParseManifestRef(name).Some? ==>
      var (repo, d) := ParseManifestRef(name).value;
      ManifestRef(repo, d) == name && ValidRepository(repo) && ValidDigest(d)
  {
    hide ValidRepository, ValidDigest, CutLast;
    Cuts(name, MANIFEST_PREFIX);
    if ParseManifestRef(name).Some? {
      var rest := CutPrefix(name, MANIFEST_PREFIX).value;
      hide CutPrefix;
      CutLastJoins(rest);
      var (repo, d) := CutLast(rest).value;
      assert ManifestRef(repo, d) == MANIFEST_PREFIX + (repo + "/" + d);
    }
  }

  lemma {:induction false} ReferrerRefParses(repo: string, subject: string, referrer: string)
    ensures ValidRepository(repo) && ValidDigest(subject) && ValidDigest(referrer) <==>
      ParseReferrerRef(ReferrerRef(repo, subject, referrer)) == Some((repo, subject, referrer))
  {
    if ValidRepository(repo) && ValidDigest(subject) && ValidDigest(referrer) {
      DigestChars(subject);
      DigestChars(referrer);
      assert repo != "";
      hide ValidRepository, ValidDigest, CutLast;
      var head := repo + "/" + subject;
      var rest := head + "/" + referrer;
      assert ReferrerRef(repo, subject, referrer) == REFERRER_PREFIX + rest;
      CutBack(REFERRER_PREFIX, rest);
      CutLastBack(head, referrer);
      CutLastBack(repo, subject);
    }
  }

  lemma {:induction false} ReferrerRefPrints(name: string)
    ensures ParseReferrerRef(name).Some? ==>
      var (repo, subject, referrer) := ParseReferrerRef(name).value;
      && ReferrerRef(repo, subject, referrer) == name
      && ValidRepository(repo) && ValidDigest(subject) && ValidDigest(referrer)
  {
    hide ValidRepository, ValidDigest, CutLast;
    Cuts(name, REFERRER_PREFIX);
    if ParseReferrerRef(name).Some? {
      var rest := CutPrefix(name, REFERRER_PREFIX).value;
      hide CutPrefix;
      CutLastJoins(rest);
      var (head, referrer) := CutLast(rest).value;
      CutLastJoins(head);
      var (repo, subject) := CutLast(head).value;
      assert ReferrerRef(repo, subject, referrer) == REFERRER_PREFIX + (repo + "/" + subject + "/" + referrer);
    }
  }

  /** A reference of any of the three kinds. */
  datatype Ref =
    | TagOf(repo: string, tag: string)
    | ManifestOf(repo: string, digest: string)
    | ReferrerOf(repo: string, subject: string, referrer: string)

  predicate ValidRef(r: Ref) {
    ValidRepository(r.repo) &&
    match r
    case TagOf(_, tag) => ValidTag(tag)
    case ManifestOf(_, d) => ValidDigest(d)
    case ReferrerOf(_, s, d) => ValidDigest(s) && ValidDigest(d)
  }

  function Print(r: Ref): string {
    match r
    case TagOf(repo, tag) => TagRef(repo, tag)
    case ManifestOf(repo, d) => ManifestRef(repo, d)
    case ReferrerOf(repo, s, d) => ReferrerRef(repo, s, d)
  }

  function Parse(name: string): Option<Ref> {
    var t, m, r := ParseTagRef(name), ParseManifestRef(name), ParseReferrerRef(name);
    if t.Some? then Some(TagOf(t.value.0, t.value.1))
    else if m.Some? then Some(ManifestOf(m.value.0, m.value.1))
    else if r.Some? then Some(ReferrerOf(r.value.0, r.value.1, r.value.2))
    else None
  }

  /** The three kinds never share a name, valid or not. */
  lemma {:induction false} KindsAreDisjoint(a: Ref, b: Ref)
    requires Print(a) == Print(b)
    ensures a.TagOf? == b.TagOf? && a.ManifestOf? == b.ManifestOf?
  {
    var n := Print(a);
    assert a.TagOf? ==> n[..5] == TAG_PREFIX[..5];
    assert a.ManifestOf? ==> n[..5] == MANIFEST_PREFIX[..5];
    assert a.ReferrerOf? ==> n[..5] == REFERRER_PREFIX[..5];
    assert b.TagOf? ==> n[..5] == TAG_PREFIX[..5];
    assert b.ManifestOf? ==> n[..5] == MANIFEST_PREFIX[..5];
    assert b.ReferrerOf? ==> n[..5] == REFERRER_PREFIX[..5];
    assert TAG_PREFIX[4] == 't' && MANIFEST_PREFIX[4] == 'm' && REFERRER_PREFIX[4] == 'r';
    assert n[4] == n[..5][4];
  }

  /** The prefix tells the kind, so a scan by prefix meets one kind only. */
  lemma {:induction false} PrefixTellsTheKind(r: Ref)
    ensures r.TagOf? <==> "oci/tag/" <= Print(r)
    ensures r.ManifestOf? <==> "oci/manifest/" <= Print(r)
    ensures r.ReferrerOf? <==> "oci/referrer/" <= Print(r)
  {
    var n := Print(r);
    assert r.TagOf? ==> "oci/tag/" <= n;
    assert r.ManifestOf? ==> "oci/manifest/" <= n;
    assert r.ReferrerOf? ==> "oci/referrer/" <= n;
    assert "oci/tag/" <= n ==> n[4] == "oci/tag/"[4] == 't';
    assert "oci/manifest/" <= n ==> n[4] == "oci/manifest/"[4] == 'm';
    assert "oci/referrer/" <= n ==> n[4] == "oci/referrer/"[4] == 'r';
  }

  lemma {:induction false} OnlyItsParser(name: string)
    ensures ParseTagRef(name).Some? ==> ParseManifestRef(name).None? && ParseReferrerRef(name).None?
    ensures ParseManifestRef(name).Some? ==> ParseReferrerRef(name).None?
  {
    OnlyItsPrefix(name);
    hide CutPrefix, CutLast, CutFirst, ValidRepository, ValidTag, ValidDigest;
  }

  lemma {:induction false} OnlyItsPrefix(name: string)
    ensures CutPrefix(name, TAG_PREFIX).Some? ==>
      CutPrefix(name, MANIFEST_PREFIX).None? && CutPrefix(name, REFERRER_PREFIX).None?
    ensures CutPrefix(name, MANIFEST_PREFIX).Some? ==> CutPrefix(name, REFERRER_PREFIX).None?
  {
    assert TAG_PREFIX[4] == 't' && MANIFEST_PREFIX[4] == 'm' && REFERRER_PREFIX[4] == 'r';
  }

  /** Printing and parsing are mutually inverse on the valid references. */
  lemma {:induction false} PrintParse(r: Ref)
    ensures ValidRef(r) <==> Parse(Print(r)) == Some(r)
  {
    OnlyItsParser(Print(r));
    match r {
      case TagOf(repo, tag) => TagRefParses(repo, tag);
      case ManifestOf(repo, d) => ManifestRefParses(repo, d);
      case ReferrerOf(repo, s, d) => ReferrerRefParses(repo, s, d);
    }
    hide ValidRepository, ValidTag, ValidDigest;
    ParsePrint(Print(r));
  }

  lemma {:induction false} ParsePrint(name: string)
    ensures Parse(name).Some? ==> Print(Parse(name).value) == name && ValidRef(Parse(name).value)
  {
    hide ParseTagRef, ParseManifestRef, ParseReferrerRef, ValidRepository, ValidTag, ValidDigest, TagRef,
      ManifestRef, ReferrerRef;
    TagRefPrints(name);
    ManifestRefPrints(name);
    ReferrerRefPrints(name);
  }

  lemma {:induction false} PrintIsInjective(a: Ref, b: Ref)
    requires ValidRef(a) && ValidRef(b) && Print(a) == Print(b)
    ensures a == b
  {
    hide Parse, Print, ValidRef;
    PrintParse(a);
    PrintParse(b);
  }

  // ---- Listings ---------------------------------------------------------------------------

  /** The names with a prefix, each once. */
  method ListRefs(names: set<string>, prefix: string) returns (refs: seq<string>)
    ensures forall n :: n in refs <==> n in names && prefix <= n
    ensures ByteOrder.Increasing(refs)
  {
    refs := ByteOrder.SortedNames(set n | n in names && prefix <= n);
  }

  /** A tag scan never meets another repository, nested or longer-named. */
  lemma {:induction false} TagScanIsExact(name: string, repo: string)
    requires ValidRepository(repo) && TagRef(repo, "") <= name && ParseTagRef(name).Some?
    ensures ParseTagRef(name).value.0 == repo
  {
    TagRefPrints(name);
    var (other, tag) := ParseTagRef(name).value;
    RepositoryChars(repo);
    RepositoryChars(other);
    hide ParseTagRef, ValidRepository, ValidTag, TagRef;
    var after := name[|TagRef(repo, "")|..];
    assert name == TagRef(repo, "") + after;
    TagRefSplits(repo, "", after);
    TagRefSplits(other, tag, "");
    assert name == TagRef(other, tag) + "";
    SameAfter(TAG_PREFIX, repo + ":" + after, other + ":" + tag);
    SameBeforeColon(repo, after, other, tag);
  }

  lemma {:induction false} TagRefSplits(repo: string, tag: string, after: string)
    ensures TagRef(repo, tag) + after == TAG_PREFIX + (repo + ":" + (tag + after))
    ensures tag == "" ==> tag + after == after
    ensures after == "" ==> tag + after == tag
  {
  }

  lemma {:induction false} SameAfter(p: string, x: string, y: string)
    requires p + x == p + y
    ensures x == y
  {
    CutBack(p, x);
    CutBack(p, y);
  }

  lemma {:induction false} SameBeforeColon(a: string, b: string, c: string, d: string)
    requires ':' !in a && ':' !in c && a + ":" + b == c + ":" + d
    ensures a == c
  {
    hide Find;
    SplitBack(a, ':', b);
    SplitBack(c, ':', d);
    FindUnique(a + [':'] + b, ':', |a|);
    FindUnique(c + [':'] + d, ':', |c|);
  }

  // What a repository has, by the references that exist.

  ghost predicate HasTag(names: set<string>, repo: string, t: string) {
    ValidRef(TagOf(repo, t)) && TagRef(repo, t) in names
  }

  ghost predicate HasManifest(names: set<string>, repo: string, d: string) {
    ValidRef(ManifestOf(repo, d)) && ManifestRef(repo, d) in names
  }

  ghost predicate HasReferrer(names: set<string>, repo: string, subject: string, d: string) {
    ValidRef(ReferrerOf(repo, subject, d)) && ReferrerRef(repo, subject, d) in names
  }

  lemma {:induction false} ParsedTag(names: set<string>, n: string, repo: string, t: string)
    ensures n in names && ParseTagRef(n) == Some((repo, t)) ==> HasTag(names, repo, t) && n == TagRef(repo, t)
    ensures HasTag(names, repo, t) ==>
      ParseTagRef(TagRef(repo, t)) == Some((repo, t)) && TagRef(repo, "") <= TagRef(repo, t)
  {
    TagRefPrints(n);
    TagRefParses(repo, t);
    hide ParseTagRef, ValidRepository, ValidTag;
  }

  lemma {:induction false} ParsedManifest(names: set<string>, n: string, repo: string, d: string)
    ensures n in names && ParseManifestRef(n) == Some((repo, d)) ==>
      HasManifest(names, repo, d) && n == ManifestRef(repo, d)
    ensures HasManifest(names, repo, d) ==>
      ParseManifestRef(ManifestRef(repo, d)) == Some((repo, d)) && ManifestRef(repo, "") <= ManifestRef(repo, d)
  {
    ManifestRefPrints(n);
    ManifestRefParses(repo, d);
    hide ParseManifestRef, ValidRepository, ValidDigest;
  }

  lemma {:induction false} ParsedReferrer(names: set<string>, n: string, repo: string, subject: string, d: string)
    ensures n in names && ParseReferrerRef(n) == Some((repo, subject, d)) ==>
      HasReferrer(names, repo, subject, d) && n == ReferrerRef(repo, subject, d)
    ensures HasReferrer(names, repo, subject, d) ==>
      && ParseReferrerRef(ReferrerRef(repo, subject, d)) == Some((repo, subject, d))
      && ReferrerRef(repo, subject, "") <= ReferrerRef(repo, subject, d)
  {
    ReferrerRefPrints(n);
    ReferrerRefParses(repo, subject, d);
    hide ParseReferrerRef, ValidRepository, ValidDigest;
  }

  /** Tags: the repository's tags in byte order, exactly; None when it has
      neither tags nor manifests. */
  method Tags(names: set<string>, repo: string) returns (r: Option<seq<string>>)
    ensures r.None? <==> (forall t :: !HasTag(names, repo, t)) && (forall d :: !HasManifest(names, repo, d))
    ensures r.Some? ==> ByteOrder.Increasing(r.value) && forall t :: t in r.value <==> HasTag(names, repo, t)
  {
    hide *;
    var refs := ListRefs(names, TagRef(repo, ""));
    var tags: set<string> := {};
    for k := 0 to |refs|
      invariant forall t :: t in tags ==> HasTag(names, repo, t)
      invariant forall j :: 0 <= j < k && ParseTagRef(refs[j]).Some? && ParseTagRef(refs[j]).value.0 == repo ==>
        ParseTagRef(refs[j]).value.1 in tags
    {
      var p := ParseTagRef(refs[k]);
      if p.Some? && p.value.0 == repo {
        ParsedTag(names, refs[k], repo, p.value.1);
        tags := tags + {p.value.1};
      }
    }
    forall t | HasTag(names, repo, t) ensures t in tags {
      ParsedTag(names, TagRef(repo, t), repo, t);
      HasTagName(names, repo, t);
      var j :| 0 <= j < |refs| && refs[j] == TagRef(repo, t);
    }
    if tags == {} {
      var known := RepoHasManifests(names, repo);
      if !known {
        return None;
      }
    }
    var sorted := ByteOrder.SortedNames(tags);
    return Some(sorted);
  }

  lemma {:induction false} HasTagName(names: set<string>, repo: string, t: string)
    requires HasTag(names, repo, t)
    ensures TagRef(repo, t) in names
  {
  }

  lemma {:induction false} HasManifestName(names: set<string>, repo: string, d: string)
    requires HasManifest(names, repo, d)
    ensures ManifestRef(repo, d) in names
  {
  }

  lemma {:induction false} HasReferrerName(names: set<string>, repo: string, subject: string, d: string)
    requires HasReferrer(names, repo, subject, d)
    ensures ReferrerRef(repo, subject, d) in names
  {
  }

  method RepoHasManifests(names: set<string>, repo: string) returns (known: bool)
    ensures known <==> exists d :: HasManifest(names, repo, d)
  {
    hide *;
    var refs := ListRefs(names, ManifestRef(repo, ""));
    for k := 0 to |refs|
      invariant forall j :: 0 <= j < k ==> ParseManifestRef(refs[j]).None? || ParseManifestRef(refs[j]).value.0 != repo
    {
      var p := ParseManifestRef(refs[k]);
      if p.Some? && p.value.0 == repo {
        ParsedManifest(names, refs[k], repo, p.value.1);
        return true;
      }
    }
    forall d
      ensures HasManifest(names, repo, d) ==>
        ManifestRef(repo, d) in refs && ParseManifestRef(ManifestRef(repo, d)) == Some((repo, d)) {
      ParsedManifest(names, ManifestRef(repo, d), repo, d);
      if HasManifest(names, repo, d) { HasManifestName(names, repo, d); }
    }
    return false;
  }

  /** Manifests: every digest pushed to the repository, never to a nested one;
      None when there is none. */
  method Manifests(names: set<string>, repo: string) returns (r: Option<seq<string>>)
    ensures r.None? <==> forall d :: !HasManifest(names, repo, d)
    ensures r.Some? ==> ByteOrder.Increasing(r.value) && forall d :: d in r.value <==> HasManifest(names, repo, d)
  {
    hide *;
    var refs := ListRefs(names, ManifestRef(repo, ""));
    var digests: set<string> := {};
    for k := 0 to |refs|
      invariant forall d :: d in digests ==> HasManifest(names, repo, d)
      invariant forall j :: 0 <= j < k && ParseManifestRef(refs[j]).Some? && ParseManifestRef(refs[j]).value.0 == repo ==>
        ParseManifestRef(refs[j]).value.1 in digests
    {
      var p := ParseManifestRef(refs[k]);
      if p.Some? && p.value.0 == repo {
        ParsedManifest(names, refs[k], repo, p.value.1);
        digests := digests + {p.value.1};
      }
    }
    forall d | HasManifest(names, repo, d) ensures d in digests {
      ParsedManifest(names, ManifestRef(repo, d), repo, d);
      HasManifestName(names, repo, d);
      var j :| 0 <= j < |refs| && refs[j] == ManifestRef(repo, d);
    }
    if digests == {} {
      return None;
    }
    var sorted := ByteOrder.SortedNames(digests);
    return Some(sorted);
  }

  predicate Refers(p: Option<(string, string, string)>, repo: string, subject: string) {
    p.Some? && p.value.0 == repo && p.value.1 == subject
  }

  /** What a referrer's meta.json says of it. */
  datatype Described = Described(
    mediaType: string, digest: string, size: nat, artifactType: string, annotations: map<string, string>)

  /** The references with their metas; None is one that cannot be read. */
  type Metas = map<string, Option<Described>>

  /** A referrer of the subject that passes the artifact type filter. */
  ghost predicate Answers(refs: Metas, repo: string, subject: string, filter: string, n: string) {
    && n in refs && Refers(ParseReferrerRef(n), repo, subject)
    && refs[n].Some? && (filter == "" || refs[n].value.artifactType == filter)
  }

  ghost predicate AnswerIs(refs: Metas, repo: string, subject: string, filter: string, n: string, m: Described) {
    Answers(refs, repo, subject, filter, n) && refs[n].value == m
  }

  /** Some referrer of the subject that passes the filter is described so. */
  ghost predicate SomeAnswer(refs: Metas, repo: string, subject: string, filter: string, m: Described) {
    exists n :: AnswerIs(refs, repo, subject, filter, n, m)
  }

  ghost function Answering(refs: Metas, repo: string, subject: string, filter: string): set<string> {
    set n | n in refs && Answers(refs, repo, subject, filter, n)
  }

  ghost predicate ByDigest(ds: seq<Described>) {
    forall i, j :: 0 <= i < j < |ds| ==> !ByteOrder.Less(ds[j].digest, ds[i].digest)
  }

  /** Referrers: one descriptor per referrer of the subject in the repository that
      has the artifact type asked for, by digest; an error exactly when the meta of
      one of its referrers cannot be read. */
  method Referrers(refs: Metas, repo: string, subject: string, filter: string) returns (r: Option<seq<Described>>)
    ensures r.None? <==>
      exists d :: HasReferrer(refs.Keys, repo, subject, d) && refs[ReferrerRef(repo, subject, d)].None?
    ensures r.Some? ==> ByDigest(r.value) && |r.value| == |Answering(refs, repo, subject, filter)|
    ensures r.Some? ==> forall m :: m in r.value <==> SomeAnswer(refs, repo, subject, filter, m)
  {
    hide HasReferrer, ParseReferrerRef, ReferrerRef, ByteOrder.Less, ByteOrder.Increasing, Answering, AnswersIn;
    hide ByDigest, Answers, SomeAnswer, AnswerIs;
    var names := ListRefs(refs.Keys, ReferrerRef(repo, subject, ""));
    Scanned(refs, repo, subject, names);
    var out: seq<Described> := [];
    NoAnswers(refs, repo, subject, filter);
    for k := 0 to |names|
      invariant forall j :: 0 <= j < k && Refers(ParseReferrerRef(names[j]), repo, subject) ==> refs[names[j]].Some?
      invariant ByDigest(out) && |out| == |AnswersIn(refs, repo, subject, filter, names[..k])|
      invariant forall m :: m in out ==> SomeAnswer(refs, repo, subject, filter, m)
      invariant forall j, m :: 0 <= j < k && AnswerIs(refs, repo, subject, filter, names[j], m) ==> m in out
    {
      var p := ParseReferrerRef(names[k]);
      Answer(refs, repo, subject, filter, names[k]);
      AnswersNext(refs, repo, subject, filter, names, k);
      if p.Some? && p.value.0 == repo && p.value.1 == subject {
        ParsedReferrer(refs.Keys, names[k], repo, subject, p.value.2);
        if refs[names[k]].None? {
          return None;
        }
        var m := refs[names[k]].value;
        if filter == "" || m.artifactType == filter {
          out := Inserted(out, m);
        }
      }
    }
    assert names[..|names|] == names;
    AllAnswers(refs, repo, subject, filter, names);
    return Some(out);
  }

  lemma {:induction false} Answer(refs: Metas, repo: string, subject: string, filter: string, n: string)
    requires n in refs
    ensures Answers(refs, repo, subject, filter, n) <==>
      Refers(ParseReferrerRef(n), repo, subject) && refs[n].Some? && (filter == "" || refs[n].value.artifactType == filter)
    ensures Answers(refs, repo, subject, filter, n) ==> SomeAnswer(refs, repo, subject, filter, refs[n].value)
    ensures forall m :: AnswerIs(refs, repo, subject, filter, n, m) ==>
      Answers(refs, repo, subject, filter, n) && refs[n].value == m
  {
    hide ParseReferrerRef;
    if Answers(refs, repo, subject, filter, n) { assert AnswerIs(refs, repo, subject, filter, n, refs[n].value); }
  }

  ghost function AnswersIn(refs: Metas, repo: string, subject: string, filter: string,
      names: seq<string>): set<string> {
    set n | n in names && Answers(refs, repo, subject, filter, n)
  }

  lemma {:induction false} NoAnswers(refs: Metas, repo: string, subject: string, filter: string)
    ensures AnswersIn(refs, repo, subject, filter, []) == {} && ByDigest([])
  {
  }

  lemma {:induction false} AnswersNext(refs: Metas, repo: string, subject: string, filter: string,
      names: seq<string>, k: nat)
    requires k < |names| && ByteOrder.Increasing(names)
    ensures
      var was, now := AnswersIn(refs, repo, subject, filter, names[..k]), AnswersIn(refs, repo, subject, filter, names[..k + 1]);
      |now| == |was| + if Answers(refs, repo, subject, filter, names[k]) then 1 else 0
  {
    hide Answers;
    var was, now := AnswersIn(refs, repo, subject, filter, names[..k]), AnswersIn(refs, repo, subject, filter, names[..k + 1]);
    assert names[..k + 1] == names[..k] + [names[k]];
    forall i | 0 <= i < k ensures names[i] != names[k] { ByteOrder.LessIrreflexive(names[k]); }
    assert names[k] !in was;
    assert now == if Answers(refs, repo, subject, filter, names[k]) then was + {names[k]} else was;
  }

  /** The scan by prefix meets every referrer of the subject. */
  lemma {:induction false} Scanned(refs: Metas, repo: string, subject: string, names: seq<string>)
    requires forall n :: n in names <==> n in refs.Keys && ReferrerRef(repo, subject, "") <= n
    ensures forall n :: n in refs && Refers(ParseReferrerRef(n), repo, subject) ==> n in names
    ensures forall d :: HasReferrer(refs.Keys, repo, subject, d) ==>
      ReferrerRef(repo, subject, d) in names && Refers(ParseReferrerRef(ReferrerRef(repo, subject, d)), repo, subject)
  {
    hide ParseReferrerRef, ReferrerRef, HasReferrer;
    forall n | n in refs && Refers(ParseReferrerRef(n), repo, subject) ensures n in names {
      var d := ParseReferrerRef(n).value.2;
      ParsedReferrer(refs.Keys, n, repo, subject, d);
    }
    forall d | HasReferrer(refs.Keys, repo, subject, d)
      ensures ReferrerRef(repo, subject, d) in names
      ensures Refers(ParseReferrerRef(ReferrerRef(repo, subject, d)), repo, subject)
    {
      HasReferrerName(refs.Keys, repo, subject, d);
      ParsedReferrer(refs.Keys, ReferrerRef(repo, subject, d), repo, subject, d);
    }
  }

  lemma {:induction false} AllAnswers(refs: Metas, repo: string, subject: string, filter: string, names: seq<string>)
    requires forall n :: n in refs && Refers(ParseReferrerRef(n), repo, subject) ==> n in names
    ensures AnswersIn(refs, repo, subject, filter, names) == Answering(refs, repo, subject, filter)
    ensures forall m :: SomeAnswer(refs, repo, subject, filter, m) ==>
      exists j :: 0 <= j < |names| && AnswerIs(refs, repo, subject, filter, names[j], m)
  {
    hide ParseReferrerRef;
    forall m | SomeAnswer(refs, repo, subject, filter, m)
      ensures exists j :: 0 <= j < |names| && AnswerIs(refs, repo, subject, filter, names[j], m)
    {
      var n :| AnswerIs(refs, repo, subject, filter, n, m);
      var j :| 0 <= j < |names| && names[j] == n;
    }
  }

  /** One step of an insertion sort by digest. */
  method Inserted(ds: seq<Described>, m: Described) returns (r: seq<Described>)
    requires ByDigest(ds)
    ensures ByDigest(r) && |r| == |ds| + 1 && forall x :: x in r <==> x == m || x in ds
  {
    var i := |ds|;
    while i > 0 && ByteOrder.Less(m.digest, ds[i - 1].digest)
      invariant 0 <= i <= |ds|
      invariant forall j :: i <= j < |ds| ==> ByteOrder.Less(m.digest, ds[j].digest)
    {
      i := i - 1;
    }
    r := ds[..i] + [m] + ds[i..];
    SortedIn(ds, m, i);
    assert ds == ds[..i] + ds[i..];
  }

  lemma {:induction false} SortedIn(ds: seq<Described>, m: Described, i: nat)
    requires ByDigest(ds) && i <= |ds|
    requires forall j :: i <= j < |ds| ==> ByteOrder.Less(m.digest, ds[j].digest)
    requires i > 0 ==> !ByteOrder.Less(m.digest, ds[i - 1].digest)
    ensures ByDigest(ds[..i] + [m] + ds[i..])
  {
    hide ByteOrder.Less;
    forall j | 0 <= j < i ensures !ByteOrder.Less(m.digest, ds[j].digest) {
      NotLess(m.digest, ds[i - 1].digest, ds[j].digest);
    }
    forall j | i <= j < |ds| ensures !ByteOrder.Less(ds[j].digest, m.digest) {
      Asymmetric(m.digest, ds[j].digest);
    }
  }

  lemma {:induction false} Asymmetric(a: string, b: string)
    requires ByteOrder.Less(a, b)
    ensures !ByteOrder.Less(b, a)
  {
    hide ByteOrder.Less;
    if ByteOrder.Less(b, a) {
      ByteOrder.LessTransitive(a, b, a);
      ByteOrder.LessIrreflexive(a);
    }
  }

  lemma {:induction false} NotLess(a: string, b: string, c: string)
    requires !ByteOrder.Less(a, b) && (b == c || !ByteOrder.Less(b, c))
    ensures !ByteOrder.Less(a, c)
  {
    hide ByteOrder.Less;
    if ByteOrder.Less(a, c) && b != c {
      ByteOrder.LessTotal(b, c);
      ByteOrder.LessTransitive(a, c, b);
    }
  }

  ghost predicate Exists(names: set<string>, repo: string) {
    (exists t :: HasTag(names, repo, t)) || (exists d :: HasManifest(names, repo, d))
  }

  /** Repositories: each one that has a tag or a manifest, once, in byte order. */
  method Repositories(names: set<string>) returns (r: seq<string>)
    ensures ByteOrder.Increasing(r) && forall repo :: repo in r <==> Exists(names, repo)
  {
    hide *;
    var tagRefs := ListRefs(names, TAG_PREFIX);
    var manifestRefs := ListRefs(names, MANIFEST_PREFIX);
    var seen: set<string> := {};
    for k := 0 to |tagRefs|
      invariant forall x :: x in seen ==> Exists(names, x)
      invariant forall j :: 0 <= j < k && ParseTagRef(tagRefs[j]).Some? ==> ParseTagRef(tagRefs[j]).value.0 in seen
    {
      var p := ParseTagRef(tagRefs[k]);
      if p.Some? {
        ParsedTag(names, tagRefs[k], p.value.0, p.value.1);
        TagExists(names, p.value.0, p.value.1);
        seen := seen + {p.value.0};
      }
    }
    ghost var tagged := seen;
    for k := 0 to |manifestRefs|
      invariant tagged <= seen && forall x :: x in seen ==> Exists(names, x)
      invariant forall j :: 0 <= j < k && ParseManifestRef(manifestRefs[j]).Some? ==>
        ParseManifestRef(manifestRefs[j]).value.0 in seen
    {
      var p := ParseManifestRef(manifestRefs[k]);
      if p.Some? {
        ParsedManifest(names, manifestRefs[k], p.value.0, p.value.1);
        ManifestExists(names, p.value.0, p.value.1);
        seen := seen + {p.value.0};
      }
    }
    forall repo | Exists(names, repo) ensures repo in seen {
      var found := WhatExists(names, repo);
      match found {
        case TagOf(_, t) =>
          ParsedTag(names, TagRef(repo, t), repo, t);
          HasTagName(names, repo, t);
          TagHasPrefix(repo, t);
          var j :| 0 <= j < |tagRefs| && tagRefs[j] == TagRef(repo, t);
        case ManifestOf(_, d) =>
          ParsedManifest(names, ManifestRef(repo, d), repo, d);
          HasManifestName(names, repo, d);
          ManifestHasPrefix(repo, d);
          var j :| 0 <= j < |manifestRefs| && manifestRefs[j] == ManifestRef(repo, d);
      }
    }
    r := ByteOrder.SortedNames(seen);
  }

  lemma {:induction false} TagExists(names: set<string>, repo: string, t: string)
    requires HasTag(names, repo, t)
    ensures Exists(names, repo)
  {
  }

  lemma {:induction false} ManifestExists(names: set<string>, repo: string, d: string)
    requires HasManifest(names, repo, d)
    ensures Exists(names, repo)
  {
  }

  lemma {:induction false} WhatExists(names: set<string>, repo: string) returns (r: Ref)
    requires Exists(names, repo)
    ensures !r.ReferrerOf?
    ensures r.TagOf? ==> HasTag(names, repo, r.tag)
    ensures r.ManifestOf? ==> HasManifest(names, repo, r.digest)
  {
    if t :| HasTag(names, repo, t) {
      r := TagOf(repo, t);
    } else {
      var d :| HasManifest(names, repo, d);
      r := ManifestOf(repo, d);
    }
  }

  lemma {:induction false} TagHasPrefix(repo: string, t: string)
    ensures TAG_PREFIX <= TagRef(repo, t)
  {
  }

  lemma {:induction false} ManifestHasPrefix(repo: string, d: string)
    ensures MANIFEST_PREFIX <= ManifestRef(repo, d)
  {
  }
}
