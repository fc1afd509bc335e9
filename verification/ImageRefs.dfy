/** Publishing and deleting images (image/store.go): the references a Put makes
    and a Delete removes, call by call, with a reference store any call of which
    may fail; and what every run keeps true of them. */
module ImageRefs {
  import opened Wrappers
  import opened OciNames
  import opened RefNames
  import ByteOrder

  /** An image root as a reference has it, with what its meta.json says. */
  datatype Root = Root(id: nat, digest: string, subject: Option<string>)

  type Refs = map<string, Root>

  /** A digest is the hash of one body, so it has one subject. */
  type Subjects = map<string, Option<string>>

  // ---- The invariant ------------------------------------------------------------------

  ghost predicate Has(refs: Refs, r: Ref) { ValidRef(r) && Print(r) in refs }

  /** A tag names an image whose manifest is there; so does a referrer, and it
      stands where its manifest's subject says. */
  ghost predicate Fine(refs: Refs, subjects: Subjects, r: Ref)
    requires Has(refs, r)
  {
    var root := refs[Print(r)];
    match r
    case TagOf(repo, _) => Has(refs, ManifestOf(repo, root.digest))
    case ManifestOf(_, d) => root.digest == d && d in subjects && root.subject == subjects[d]
    case ReferrerOf(repo, s, d) =>
      root.digest == d && d in subjects && subjects[d] == Some(s) && Has(refs, ManifestOf(repo, d))
  }

  /** What holds of one repository's references. */
  ghost predicate RepoInv(refs: Refs, subjects: Subjects, repo: string) {
    forall r: Ref :: r.repo == repo && Has(refs, r) ==> Fine(refs, subjects, r)
  }

  ghost predicate Inv(refs: Refs, subjects: Subjects) {
    forall repo :: RepoInv(refs, subjects, repo)
  }

  ghost predicate SameIn(a: Refs, b: Refs, repo: string) {
    forall r: Ref :: r.repo == repo && ValidRef(r) ==>
      (Print(r) in a <==> Print(r) in b) && (Print(r) in a ==> a[Print(r)] == b[Print(r)])
  }

  /** Only a repository's own references matter to it, so calls for other
      repositories, at any moment between two of its own, change nothing. */
  lemma {:induction false} OthersDoNotMatter(a: Refs, b: Refs, subjects: Subjects, repo: string)
    requires SameIn(a, b, repo) && RepoInv(a, subjects, repo)
    ensures RepoInv(b, subjects, repo)
  {
    hide ValidRef, Print;
    forall r: Ref | r.repo == repo && Has(b, r) ensures Fine(b, subjects, r) {
      assert Has(a, r);
      assert Fine(a, subjects, r);
    }
  }

  // ---- Put --------------------------------------------------------------------------------

  /** What a Put publishes, in order: the manifest, the tag, the referrer. */
  function Publishes(repo: string, digest: string, tag: Option<string>, subject: Option<string>): seq<Ref> {
    [ManifestOf(repo, digest)]
    + (if tag.Some? then [TagOf(repo, tag.value)] else [])
    + (if subject.Some? then [ReferrerOf(repo, subject.value, digest)] else [])
  }

  function Published(refs: Refs, names: seq<Ref>, root: Root): Refs {
    if names == [] then refs else Published(refs, names[..|names| - 1], root)[Print(names[|names| - 1]) := root]
  }

  // ---- Delete -----------------------------------------------------------------------------

  /** Whether a delete by digest of the image `root` removes a reference. */
  predicate Doomed(refs: Refs, repo: string, d: string, root: Root, name: string)
    requires name in refs
  {
    || name == ManifestRef(repo, d)
    || (TagRef(repo, "") <= name && refs[name].digest == root.digest)
    || (root.subject.Some? && name == ReferrerRef(repo, root.subject.value, root.digest))
  }

  function Spared(refs: Refs, repo: string, d: string, root: Root): Refs {
    map n | n in refs && !Doomed(refs, repo, d, root, n) :: refs[n]
  }

  // ---- Which references are meant -------------------------------------------------------------

  lemma {:induction false} SameName(a: Ref, b: Ref)
    requires ValidRef(a) && ValidRef(b)
    ensures Print(a) == Print(b) <==> a == b
  {
    if Print(a) == Print(b) { PrintIsInjective(a, b); }
  }

  /** The tag scan of a repository meets its tags and nothing else. */
  lemma {:induction false} ScannedTags(repo: string, r: Ref)
    requires ValidRepository(repo) && ValidRef(r)
    ensures TagRef(repo, "") <= Print(r) <==> r.TagOf? && r.repo == repo
  {
    hide ValidRepository, ValidTag, ValidDigest;
    if TagRef(repo, "") <= Print(r) {
      PrefixKind(r, repo);
      TagRefParses(r.repo, r.tag);
      TagScanIsExact(Print(r), repo);
    }
    if r.TagOf? && r.repo == repo {
      assert Print(r) == TagRef(repo, "") + r.tag;
    }
  }

  lemma {:induction false} PrefixKind(r: Ref, repo: string)
    requires TagRef(repo, "") <= Print(r)
    ensures r.TagOf?
  {
    assert TAG_PREFIX <= TagRef(repo, "");
    assert TAG_PREFIX[4] == 't' && MANIFEST_PREFIX[4] == 'm' && REFERRER_PREFIX[4] == 'r';
    assert Print(r)[4] == TagRef(repo, "")[4] == 't';
  }

  // ---- What Put and Delete keep ------------------------------------------------------------------

  /** A subject is a digest: ParseManifest has checked it. */
  ghost predicate SubjectsValid(subjects: Subjects) {
    forall d :: d in subjects && subjects[d].Some? ==> ValidDigest(subjects[d].value)
  }

  /** A reference that may be published: its image is the digest's own, and the
      manifest comes first. */
  ghost predicate Fits(refs: Refs, subjects: Subjects, r: Ref, root: Root) {
    && root.digest in subjects && root.subject == subjects[root.digest]
    && match r
       case TagOf(repo, _) => Has(refs, ManifestOf(repo, root.digest))
       case ManifestOf(_, d) => root.digest == d
       case ReferrerOf(repo, s, d) => root.digest == d && root.subject == Some(s) && Has(refs, ManifestOf(repo, d))
  }

  lemma {:induction false} PublishKeeps(refs: Refs, subjects: Subjects, r: Ref, root: Root)
    requires ValidRef(r) && RepoInv(refs, subjects, r.repo) && Fits(refs, subjects, r, root)
    ensures RepoInv(refs[Print(r) := root], subjects, r.repo)
  {
    var now := refs[Print(r) := root];
    forall x: Ref | x.repo == r.repo && Has(now, x) ensures Fine(now, subjects, x) {
      SameName(x, r);
      hide ValidRef, Print;
      assert forall y: Ref :: Has(refs, y) ==> Has(now, y);
      if x != r { assert Fine(refs, subjects, x); }
    }
  }

  lemma {:induction false} PublishElsewhere(refs: Refs, r: Ref, root: Root, repo: string)
    requires ValidRef(r) && r.repo != repo
    ensures SameIn(refs, refs[Print(r) := root], repo)
  {
    forall x: Ref | x.repo == repo && ValidRef(x) ensures Print(x) != Print(r) { SameName(x, r); }
  }

  /** Every prefix of a Put's publishing keeps the invariant. */
  lemma {:induction false} PutKeeps(refs: Refs, subjects: Subjects, repo: string, tag: Option<string>, root: Root,
      k: nat)
    requires RepoInv(refs, subjects, repo) && ValidRepository(repo) && ValidDigest(root.digest)
    requires tag.Some? ==> ValidTag(tag.value)
    requires SubjectsValid(subjects) && root.digest in subjects && root.subject == subjects[root.digest]
    requires k <= |Publishes(repo, root.digest, tag, root.subject)|
    ensures RepoInv(Published(refs, Publishes(repo, root.digest, tag, root.subject)[..k], root), subjects, repo)
    ensures k > 0 ==>
      Has(Published(refs, Publishes(repo, root.digest, tag, root.subject)[..k], root), ManifestOf(repo, root.digest))
    decreases k
  {
    var all := Publishes(repo, root.digest, tag, root.subject);
    if k > 0 {
      var was := Published(refs, all[..k - 1], root);
      PublishedNext(refs, all, root, k - 1);
      hide Publishes, Published, ValidRef, ValidRepository, ValidDigest, ValidTag, Fits, RepoInv;
      PutKeeps(refs, subjects, repo, tag, root, k - 1);
      PublishesFit(was, subjects, repo, tag, root, k - 1);
      PublishKeeps(was, subjects, all[k - 1], root);
    }
  }

  lemma {:induction false} PublishesFit(was: Refs, subjects: Subjects, repo: string, tag: Option<string>, root: Root,
      i: nat)
    requires ValidRepository(repo) && ValidDigest(root.digest) && (tag.Some? ==> ValidTag(tag.value))
    requires SubjectsValid(subjects) && root.digest in subjects && root.subject == subjects[root.digest]
    requires i < |Publishes(repo, root.digest, tag, root.subject)|
    requires i > 0 ==> Has(was, ManifestOf(repo, root.digest))
    ensures
      var r := Publishes(repo, root.digest, tag, root.subject)[i];
      && ValidRef(r) && r.repo == repo && Fits(was, subjects, r, root)
      && Has(was[Print(r) := root], ManifestOf(repo, root.digest))
  {
    hide ValidRepository, ValidDigest, ValidTag;
  }

  lemma {:induction false} PutElsewhere(refs: Refs, names: seq<Ref>, root: Root, repo: string)
    requires forall i :: 0 <= i < |names| ==> ValidRef(names[i]) && names[i].repo != repo
    ensures SameIn(refs, Published(refs, names, root), repo)
  {
    hide ValidRef, Print;
    if names != [] {
      var last := |names| - 1;
      PutElsewhere(refs, names[..last], root, repo);
      PublishElsewhere(Published(refs, names[..last], root), names[last], root, repo);
    }
  }

  /** A reference that belongs to an image. */
  predicate Belongs(refs: Refs, repo: string, d: string, r: Ref)
    requires Print(r) in refs
  {
    r.repo == repo &&
    match r
    case TagOf(_, _) => refs[Print(r)].digest == d
    case ManifestOf(_, e) => e == d
    case ReferrerOf(_, _, e) => e == d
  }

  /** A delete by digest removes exactly the references of the image: its
      manifest, every tag on any of its roots, and its referrer reference. */
  lemma {:induction false} DoomedExactly(refs: Refs, subjects: Subjects, repo: string, d: string, r: Ref)
    requires RepoInv(refs, subjects, repo) && SubjectsValid(subjects)
    requires Has(refs, ManifestOf(repo, d)) && Has(refs, r)
    ensures Doomed(refs, repo, d, refs[ManifestRef(repo, d)], Print(r)) <==> Belongs(refs, repo, d, r)
  {
    var root := refs[ManifestRef(repo, d)];
    var m := ManifestOf(repo, d);
    assert Fine(refs, subjects, m);
    SameName(r, m);
    ScannedTags(repo, r);
    if root.subject.Some? { SameName(r, ReferrerOf(repo, root.subject.value, d)); }
    hide ValidRepository, ValidTag, ValidDigest, TagRef, ManifestRef, ReferrerRef;
    if r.ReferrerOf? && r.repo == repo { assert Fine(refs, subjects, r); }
  }

  /** A delete by digest that goes through. */
  lemma {:induction false} DeleteKeeps(refs: Refs, subjects: Subjects, repo: string, d: string)
    requires RepoInv(refs, subjects, repo) && SubjectsValid(subjects) && Has(refs, ManifestOf(repo, d))
    ensures var now := Spared(refs, repo, d, refs[ManifestRef(repo, d)]);
      && RepoInv(now, subjects, repo)
      && (forall r: Ref :: Has(now, r) <==> Has(refs, r) && !Belongs(refs, repo, d, r))
  {
    var root := refs[ManifestRef(repo, d)];
    var now := Spared(refs, repo, d, root);
    forall r: Ref ensures Has(now, r) <==> Has(refs, r) && !Belongs(refs, repo, d, r) {
      if Has(refs, r) { DoomedExactly(refs, subjects, repo, d, r); }
    }
    hide ValidRef, Doomed, Print;
    forall r: Ref | r.repo == repo && Has(now, r) ensures Fine(now, subjects, r) {
      assert Fine(refs, subjects, r);
    }
  }

  lemma {:induction false} DeleteElsewhere(refs: Refs, subjects: Subjects, repo: string, d: string, other: string)
    requires RepoInv(refs, subjects, repo) && SubjectsValid(subjects) && Has(refs, ManifestOf(repo, d)) && other != repo
    ensures SameIn(refs, Spared(refs, repo, d, refs[ManifestRef(repo, d)]), other)
  {
    forall r: Ref | r.repo == other && Has(refs, r)
      ensures !Doomed(refs, repo, d, refs[ManifestRef(repo, d)], Print(r)) {
      DoomedExactly(refs, subjects, repo, d, r);
    }
    hide ValidRef, Doomed, Print;
  }

  /** What is left when only some of the doomed references are gone. */
  ghost predicate PartlyDeleted(refs: Refs, now: Refs, repo: string, d: string, root: Root) {
    && (forall n :: n in now ==> n in refs && now[n] == refs[n])
    && (forall n :: n in refs && n !in now ==> Doomed(refs, repo, d, root, n))
  }

  /** What a delete by digest can leave when a call fails: the manifest goes first,
      so whatever is missing, the manifest is. */
  ghost predicate CutShort(refs: Refs, now: Refs, repo: string, d: string, root: Root) {
    PartlyDeleted(refs, now, repo, d, root) && (now != refs ==> ManifestRef(repo, d) !in now)
  }

  /** What is left is fine if and only if the manifest is, or nothing else. */
  lemma {:induction false} PartialDelete(refs: Refs, subjects: Subjects, repo: string, d: string, now: Refs)
    requires RepoInv(refs, subjects, repo) && SubjectsValid(subjects) && Has(refs, ManifestOf(repo, d))
    requires PartlyDeleted(refs, now, repo, d, refs[ManifestRef(repo, d)])
    ensures RepoInv(now, subjects, repo) <==>
      Has(now, ManifestOf(repo, d)) || forall r: Ref :: Has(refs, r) && Belongs(refs, repo, d, r) ==> !Has(now, r)
  {
    forall r: Ref | Has(refs, r) && !Has(now, r) ensures Belongs(refs, repo, d, r) {
      DoomedExactly(refs, subjects, repo, d, r);
    }
    hide ValidRef, Doomed, Print;
    var m := ManifestOf(repo, d);
    if Has(now, m) || forall r: Ref :: Has(refs, r) && Belongs(refs, repo, d, r) ==> !Has(now, r) {
      forall r: Ref | r.repo == repo && Has(now, r) ensures Fine(now, subjects, r) {
        assert Has(refs, r) && Fine(refs, subjects, r);
      }
    } else {
      var r: Ref :| Has(refs, r) && Belongs(refs, repo, d, r) && Has(now, r);
      assert r != m && !Fine(now, subjects, r);
    }
  }

  /** The image has no reference in the repository but its manifest's. */
  ghost predicate ManifestAlone(refs: Refs, repo: string, d: string) {
    forall r: Ref :: Has(refs, r) && Belongs(refs, repo, d, r) ==> r == ManifestOf(repo, d)
  }

  /** A delete by digest is safe against every failing call if and only if, before
      the call, the image has neither a tag nor a referrer reference there. */
  lemma {:induction false} DeleteIsSafeExactly(refs: Refs, subjects: Subjects, repo: string, d: string)
    requires RepoInv(refs, subjects, repo) && SubjectsValid(subjects) && Has(refs, ManifestOf(repo, d))
    ensures
      (forall now {:trigger RepoInv(now, subjects, repo)} ::
         CutShort(refs, now, repo, d, refs[ManifestRef(repo, d)]) ==> RepoInv(now, subjects, repo))
      <==> ManifestAlone(refs, repo, d)
  {
    var root, m := refs[ManifestRef(repo, d)], ManifestOf(repo, d);
    if ManifestAlone(refs, repo, d) {
      forall now {:trigger RepoInv(now, subjects, repo)} | CutShort(refs, now, repo, d, root)
        ensures RepoInv(now, subjects, repo) {
        PartialDelete(refs, subjects, repo, d, now);
        hide ValidRef, Doomed, RepoInv;
        assert forall r: Ref :: Has(now, r) ==> Has(refs, r);
      }
    } else {
      var now := refs - {Print(m)};
      assert CutShort(refs, now, repo, d, root);
      PartialDelete(refs, subjects, repo, d, now);
      var r: Ref :| Has(refs, r) && Belongs(refs, repo, d, r) && r != m;
      SameName(r, m);
      hide ValidRef, Doomed, RepoInv, Print;
      assert Has(now, r) && !Has(now, m);
    }
  }

  /** A delete that fails right after the manifest strands the tag. */
  lemma {:induction false} StrandedTag() returns (refs: Refs, subjects: Subjects, repo: string, d: string)
    ensures RepoInv(refs, subjects, repo) && SubjectsValid(subjects) && Has(refs, ManifestOf(repo, d))
    ensures CutShort(refs, refs - {ManifestRef(repo, d)}, repo, d, refs[ManifestRef(repo, d)])
    ensures !RepoInv(refs - {ManifestRef(repo, d)}, subjects, repo)
  {
    repo := SomeRepository();
    d := SomeDigest();
    var root := Root(0, d, None);
    subjects := map[d := None];
    var m, t := ManifestOf(repo, d), TagOf(repo, "t");
    assert ValidRef(m) && ValidRef(t);
    refs := map[Print(m) := root, Print(t) := root];
    SameName(m, t);
    forall r: Ref | Has(refs, r) ensures r == m || r == t {
      SameName(r, m);
      SameName(r, t);
    }
    hide ValidRef, Print, ValidDigest, Step, Go;
    assert Has(refs, m) && Has(refs, t);
    var now := refs - {Print(m)};
    assert Has(now, t) && !Has(now, m) && !Fine(now, subjects, t);
  }

  // ---- The store ------------------------------------------------------------------------------------

  datatype PutResult = Stored | PutInvalid | PutFailed

  /** What goes wrong in a Put: nothing, something before it publishes, or one of
      its publishes, counted from 0, with or without taking effect. */
  datatype Fault = NoFault | Early | At(call: nat, effect: bool)

  predicate Fails(fault: Fault, count: nat) { fault.Early? || (fault.At? && fault.call < count) }

  /** How many of `count` publishes take effect. */
  function Effective(fault: Fault, count: nat): (n: nat)
    ensures n <= count
  {
    match fault
    case NoFault => count
    case Early => 0
    case At(k, effect) => if k < count then k + (if effect then 1 else 0) else count
  }

  /** The tag a push under this reference sets: the reference itself when it is a
      tag, none when it is a digest. */
  ghost function TagPushed(reference: string): Option<string> {
    if ValidTag(reference) then Some(reference) else None
  }

  /** What a Put that goes through leaves: the manifest's reference, the tag's when it
      was pushed under a tag, the referrer's when it has a subject, all on the new
      root, and every other name as it was. */
  ghost predicate PushLeaves(was: Refs, now: Refs, repo: string, reference: string, root: Root) {
    forall name :: LeftAt(was, now, repo, reference, root, name)
  }

  ghost predicate LeftAt(was: Refs, now: Refs, repo: string, reference: string, root: Root, name: string) {
    if || name == ManifestRef(repo, root.digest)
       || (ValidTag(reference) && name == TagRef(repo, reference))
       || (root.subject.Some? && name == ReferrerRef(repo, root.subject.value, root.digest))
    then name in now && now[name] == root
    else (name in now <==> name in was) && (name in now ==> now[name] == was[name])
  }

  ghost predicate NameIn(names: seq<Ref>, name: string) {
    exists i :: 0 <= i < |names| && Print(names[i]) == name
  }

  lemma {:induction false} PublishedAt(refs: Refs, names: seq<Ref>, root: Root, name: string)
    ensures var now := Published(refs, names, root);
      if NameIn(names, name) then name in now && now[name] == root
      else (name in now <==> name in refs) && (name in now ==> now[name] == refs[name])
  {
    hide Print;
    if names != [] {
      var init, last := names[..|names| - 1], names[|names| - 1];
      PublishedAt(refs, init, root, name);
      NameInNext(names, name);
    }
  }

  lemma {:induction false} NameInNext(names: seq<Ref>, name: string)
    requires names != []
    ensures NameIn(names, name) <==> NameIn(names[..|names| - 1], name) || Print(names[|names| - 1]) == name
  {
    hide Print;
    var init := names[..|names| - 1];
    if i :| 0 <= i < |init| && Print(init[i]) == name { assert Print(names[i]) == name; }
    if i :| 0 <= i < |names| && Print(names[i]) == name { assert i < |init| ==> Print(init[i]) == name; }
  }

  lemma {:induction false} NamesPublished(repo: string, digest: string, tag: Option<string>, subject: Option<string>,
      name: string)
    ensures NameIn(Publishes(repo, digest, tag, subject), name) <==>
      || name == ManifestRef(repo, digest) || (tag.Some? && name == TagRef(repo, tag.value))
      || (subject.Some? && name == ReferrerRef(repo, subject.value, digest))
  {
    hide TagRef, ManifestRef, ReferrerRef;
    var all := Publishes(repo, digest, tag, subject);
    assert all[0] == ManifestOf(repo, digest);
    assert tag.Some? ==> all[1] == TagOf(repo, tag.value);
    assert subject.Some? ==> all[|all| - 1] == ReferrerOf(repo, subject.value, digest);
  }

  lemma {:induction false} AllPublished(was: Refs, repo: string, reference: string, root: Root)
    ensures var all := Publishes(repo, root.digest, TagPushed(reference), root.subject);
      PushLeaves(was, Published(was, all, root), repo, reference, root)
  {
    var all := Publishes(repo, root.digest, TagPushed(reference), root.subject);
    hide ValidTag, TagRef, ManifestRef, ReferrerRef, Publishes, Published, NameIn;
    forall name ensures LeftAt(was, Published(was, all, root), repo, reference, root, name) {
      PublishedAt(was, all, root, name);
      NamesPublished(repo, root.digest, TagPushed(reference), root.subject, name);
    }
  }

  /** What goes wrong in a Delete: nothing, or one of the calls it makes on the
      store, counted from 0, with or without taking effect. */
  datatype CallFault = Smooth | FailsAt(call: nat, effect: bool)

  /** The call that fails is among the first `calls`. */
  predicate Hit(fault: CallFault, calls: nat) { fault.FailsAt? && fault.call < calls }

  datatype DeleteResult = Deleted | NotFound | DeleteInvalid | DeleteFailed

  datatype Named = Name(name: string) | NoSuchName | BadDigest

  /** refFor: the reference name Open and Delete resolve. */
  function RefFor(repo: string, reference: string): (r: Named)
    ensures r.Name? <==> ValidRepository(repo) && (ValidDigest(reference) || ValidTag(reference))
    ensures r.Name? && ValidDigest(reference) ==> r.name == ManifestRef(repo, reference)
    ensures r.Name? && ValidTag(reference) ==> r.name == TagRef(repo, reference)
    ensures r.BadDigest? <==> ValidRepository(repo) && IsDigest(reference) && !ValidDigest(reference)
  {
    DigestsAreNotTags(reference);
    if !ValidRepository(repo) then NoSuchName
    else if IsDigest(reference) then
      if ValidDigest(reference) then Name(ManifestRef(repo, reference)) else BadDigest
    else if !ValidTag(reference) then NoSuchName
    else Name(TagRef(repo, reference))
  }

  class Store {
    var refs: Refs
    var calls: nat   // how many calls the Delete at hand has made

    /** The k-th publish of a Put: it may be the one that fails, with or without
        taking effect. */
    method Publish(k: nat, r: Ref, root: Root, fault: Fault) returns (ok: bool)
      modifies this`refs
      ensures ok <==> !(fault.At? && fault.call == k)
      ensures refs == if ok || fault.effect then old(refs)[Print(r) := root] else old(refs)
    {
      ok := !(fault.At? && fault.call == k);
      if ok || fault.effect { refs := refs[Print(r) := root]; }
    }

    /** One call that only reads. */
    method Call(fault: CallFault) returns (ok: bool)
      requires !Hit(fault, calls)
      modifies this`calls
      ensures calls == old(calls) + 1 && (ok <==> !Hit(fault, calls))
    {
      ok := !(fault.FailsAt? && fault.call == calls);
      calls := calls + 1;
    }

    /** One call that deletes; a missing reference is told apart from a failure. */
    method DeleteRef(name: string, fault: CallFault) returns (r: DeleteResult)
      requires !Hit(fault, calls)
      modifies this
      ensures calls == old(calls) + 1
      ensures r == if Hit(fault, calls) then DeleteFailed else if name in old(refs) then Deleted else NotFound
      ensures refs == if r.DeleteFailed? && !fault.effect then old(refs) else old(refs) - {name}
    {
      var ok := Call(fault);
      if !ok {
        if fault.effect { refs := refs - {name}; }
        return DeleteFailed;
      }
      r := if name in refs then Deleted else NotFound;
      refs := refs - {name};
    }

    /** Put's publishing: manifest, then tag, then referrer. A failing call leaves
        those before it, and itself if it took effect. Everything before the
        publishing may fail and publishes nothing. */
    method Put(repo: string, reference: string, digest: string, parses: bool, subject: Option<string>, id: nat,
        fault: Fault)
      returns (r: PutResult)
      requires ValidDigest(digest) && (parses && subject.Some? ==> ValidDigest(subject.value))
      modifies this`refs
      ensures r.PutInvalid? <==> !ValidRepository(repo) || !(reference == digest || ValidTag(reference)) || !parses
      ensures r.PutInvalid? ==> refs == old(refs)
      ensures r.Stored? ==> PushLeaves(old(refs), refs, repo, reference, Root(id, digest, subject))
      ensures !r.PutInvalid? ==>
        var all := Publishes(repo, digest, TagPushed(reference), subject);
        && r == (if Fails(fault, |all|) then PutFailed else Stored)
        && refs == Published(old(refs), all[..Effective(fault, |all|)], Root(id, digest, subject))
    {
      hide ValidRepository, ValidTag, ValidDigest, IsDigest, Print, Published, PushLeaves;
      DigestsAreNotTags(reference);
      ghost var all := Publishes(repo, digest, TagPushed(reference), subject);
      ghost var was := refs;
      var root := Root(id, digest, subject);
      NothingPublished(was, all, root);
      AllPublished(was, repo, reference, root);
      assert all[..|all|] == all;
      if !ValidRepository(repo) {
        return PutInvalid;
      }
      var tag := None;
      if IsDigest(reference) {
        if !ValidDigest(reference) || reference != digest {
          return PutInvalid;
        }
      } else {
        if !ValidTag(reference) {
          return PutInvalid;
        }
        tag := Some(reference);
      }
      if !parses {
        return PutInvalid;
      }
      if fault.Early? {
        return PutFailed;
      }
      var ok := Publish(0, ManifestOf(repo, digest), root, fault);
      PublishedNext(was, all, root, 0);
      if !ok {
        return PutFailed;
      }
      var k := 1;
      if tag.Some? {
        ok := Publish(k, TagOf(repo, tag.value), root, fault);
        PublishedNext(was, all, root, 1);
        if !ok {
          return PutFailed;
        }
        k := 2;
      }
      if subject.Some? {
        ok := Publish(k, ReferrerOf(repo, subject.value, digest), root, fault);
        PublishedNext(was, all, root, k);
        if !ok {
          return PutFailed;
        }
      }
      return Stored;
    }

    /** Delete. By tag, the tag alone; by digest, everything of the image. It fails
        exactly when a call it made failed, and finds nothing exactly when there is
        no such reference. */
    method Delete(repo: string, reference: string, fault: CallFault) returns (r: DeleteResult)
      modifies this
      ensures
        match RefFor(repo, reference)
        case NoSuchName => r == NotFound
        case BadDigest => r == DeleteInvalid
        case Name(name) =>
          r == if Hit(fault, calls) then DeleteFailed else if name in old(refs) then Deleted else NotFound
      ensures r.DeleteInvalid? || r.NotFound? ==> refs == old(refs)
      ensures r.Deleted? && ValidTag(reference) ==> refs == old(refs) - {TagRef(repo, reference)}
      ensures r.Deleted? && ValidDigest(reference) ==>
        && ManifestRef(repo, reference) in old(refs)
        && refs == Spared(old(refs), repo, reference, old(refs)[ManifestRef(repo, reference)])
      ensures r.DeleteFailed? && ValidTag(reference) ==>
        refs == if fault.effect then old(refs) - {TagRef(repo, reference)} else old(refs)
      ensures r.DeleteFailed? && ValidDigest(reference) && refs != old(refs) ==>
        && ManifestRef(repo, reference) in old(refs)
        && CutShort(old(refs), refs, repo, reference, old(refs)[ManifestRef(repo, reference)])
    {
      hide ValidRepository, ValidTag, ValidDigest, IsDigest, TagRef, ManifestRef, ReferrerRef, RefFor;
      DigestsAreNotTags(reference);
      calls := 0;
      var named := RefFor(repo, reference);
      if named.NoSuchName? {
        return NotFound;
      }
      if named.BadDigest? {
        return DeleteInvalid;
      }
      if !IsDigest(reference) {
        r := DeleteRef(named.name, fault);
        assert r.NotFound? ==> refs == old(refs);
        return;
      }
      r := DeleteImage(repo, reference, named.name, fault);
    }

    /** The tags of the repository that are on the image's root or on another one
        with its digest. */
    method DeleteTags(repo: string, root: Root, fault: CallFault) returns (ok: bool)
      requires !Hit(fault, calls)
      modifies this
      ensures ok <==> !Hit(fault, calls)
      ensures forall n :: n in refs ==> n in old(refs) && refs[n] == old(refs)[n]
      ensures forall n :: n in old(refs) && n !in refs ==> TagRef(repo, "") <= n && old(refs)[n].digest == root.digest
      ensures ok ==> forall n :: n in refs && TagRef(repo, "") <= n ==> refs[n].digest != root.digest
    {
      hide TagRef;
      var listed := Call(fault);
      if !listed {
        return false;
      }
      var scan := TagRef(repo, "");
      var tags := ListRefs(refs.Keys, scan);
      for k := 0 to |tags|
        invariant !Hit(fault, calls)
        invariant forall n :: n in old(refs) && n !in refs ==> scan <= n && old(refs)[n].digest == root.digest
        invariant forall n :: n in refs ==> n in old(refs) && refs[n] == old(refs)[n]
        invariant forall j :: 0 <= j < k && tags[j] in refs ==> refs[tags[j]].digest != root.digest
        invariant forall j :: k <= j < |tags| ==> tags[j] in refs
      {
        assert tags[k] in refs;
        var same := refs[tags[k]] == root;
        if !same {
          var read := Call(fault);
          if !read {
            return false;
          }
          same := refs[tags[k]].digest == root.digest;
        }
        if same {
          TagsDiffer(tags, k);
          var gone := DeleteRef(tags[k], fault);
          if gone.DeleteFailed? {
            return false;
          }
        }
      }
      return true;
    }

    method DeleteImage(repo: string, d: string, name: string, fault: CallFault) returns (r: DeleteResult)
      requires name == ManifestRef(repo, d) && !Hit(fault, calls)
      modifies this
      ensures r == if Hit(fault, calls) then DeleteFailed else if name in old(refs) then Deleted else NotFound
      ensures r.NotFound? ==> refs == old(refs)
      ensures r.Deleted? ==> name in old(refs) && refs == Spared(old(refs), repo, d, old(refs)[name])
      ensures r.DeleteFailed? ==>
        refs == old(refs) || (name in old(refs) && CutShort(old(refs), refs, repo, d, old(refs)[name]))
    {
      hide TagRef, ManifestRef, ReferrerRef;
      ghost var was := refs;
      var ok := Call(fault);
      if !ok {
        return DeleteFailed;
      }
      if name !in refs {
        return NotFound;
      }
      var root := refs[name];
      ok := Call(fault);
      if !ok {
        return DeleteFailed;
      }
      r := DeleteRef(name, fault);
      if !r.Deleted? {
        return;
      }
      ok := DeleteTags(repo, root, fault);
      if !ok {
        return DeleteFailed;
      }
      if root.subject.Some? {
        var gone := DeleteRef(ReferrerRef(repo, root.subject.value, root.digest), fault);
        if gone.DeleteFailed? {
          return DeleteFailed;
        }
      }
      assert refs == Spared(was, repo, d, root);
      return Deleted;
    }
  }

  lemma {:induction false} TagsDiffer(tags: seq<string>, k: nat)
    requires k < |tags| && ByteOrder.Increasing(tags)
    ensures forall j :: k < j < |tags| ==> tags[j] != tags[k]
  {
    forall j | k < j < |tags| ensures tags[j] != tags[k] { ByteOrder.LessIrreflexive(tags[k]); }
  }

  lemma {:induction false} NothingPublished(refs: Refs, all: seq<Ref>, root: Root)
    ensures Published(refs, all[..0], root) == refs
  {
  }

  /** The references named are there already and name this root. */
  ghost predicate AlreadyThere(refs: Refs, names: seq<Ref>, root: Root) {
    forall i :: 0 <= i < |names| ==> Print(names[i]) in refs && refs[Print(names[i])] == root
  }

  lemma {:induction false} PublishedAll(refs: Refs, names: seq<Ref>, root: Root)
    ensures AlreadyThere(Published(refs, names, root), names, root)
    ensures AlreadyThere(refs, names, root) ==> Published(refs, names, root) == refs
  {
    hide Print;
    if names != [] { PublishedAll(refs, names[..|names| - 1], root); }
  }

  /** A Put that fails has published nothing if and only if it failed before its
      first publish took effect, or only rewrote what was there already. */
  lemma {:induction false} FailedPutPublishesNothingExactly(refs: Refs, repo: string, tag: Option<string>,
      root: Root, fault: Fault)
    requires var all := Publishes(repo, root.digest, tag, root.subject); Fails(fault, |all|)
    ensures
      var all := Publishes(repo, root.digest, tag, root.subject);
      var n := Effective(fault, |all|);
      Published(refs, all[..n], root) == refs <==>
        || fault.Early? || (fault.call == 0 && !fault.effect)
        || AlreadyThere(refs, all[..n], root)
  {
    var all := Publishes(repo, root.digest, tag, root.subject);
    hide Print, Publishes;
    PublishedAll(refs, all[..Effective(fault, |all|)], root);
    NothingPublished(refs, all, root);
  }

  /** A tag push to an empty store whose second publish fails leaves the manifest. */
  lemma {:induction false} FailedTagPush() returns (repo: string, tag: string, root: Root, fault: Fault)
    ensures ValidRepository(repo) && ValidTag(tag) && ValidDigest(root.digest)
    ensures
      var all := Publishes(repo, root.digest, Some(tag), root.subject);
      Fails(fault, |all|) && Published(map[], all[..Effective(fault, |all|)], root) == map[ManifestRef(repo, root.digest) := root]
  {
    repo := SomeRepository();
    var d := SomeDigest();
    tag, root, fault := "t", Root(0, d, None), At(1, false);
    var all := Publishes(repo, root.digest, Some(tag), None);
    assert all[..1] == [ManifestOf(repo, root.digest)] && all[..1][..0] == [];
    assert Published(map[], all[..1], root) == Published(map[], [], root)[Print(all[0]) := root];
  }

  lemma {:induction false} SomeRepository() returns (repo: string)
    ensures ValidRepository(repo)
  {
    repo := "a";
    assert Step(Start, 'a') == InRun && repo[1..] == "" && Go(InRun, "") == InRun;
  }

  lemma {:induction false} SomeDigest() returns (d: string)
    ensures ValidDigest(d)
  {
    d := "sha256:" + seq(64, _ => '0');
    DigestShape(d);
  }

  lemma {:induction false} PublishedNext(refs: Refs, all: seq<Ref>, root: Root, k: nat)
    ensures k < |all| ==> Published(refs, all[..k + 1], root) == Published(refs, all[..k], root)[Print(all[k]) := root]
  {
    if k < |all| { assert all[..k + 1][..k] == all[..k]; }
  }

  // ---- Every run ---------------------------------------------------------------------------------

  /** One call as the repository's lock makes it: a Put that published some
      prefix, a delete of a tag, or a delete by digest that went through. */
  datatype Call =
    | PutCall(repo: string, tag: Option<string>, root: Root, published: nat)
    | DeleteTag(repo: string, name: string)
    | DeleteDigest(repo: string, digest: string)

  ghost predicate Legal(c: Call, subjects: Subjects, refs: Refs) {
    ValidRepository(c.repo) &&
    match c
    case PutCall(repo, tag, root, published) =>
      && ValidDigest(root.digest) && (tag.Some? ==> ValidTag(tag.value))
      && root.digest in subjects && root.subject == subjects[root.digest]
      && published <= |Publishes(repo, root.digest, tag, root.subject)|
    case DeleteTag(_, tag) => ValidTag(tag)
    case DeleteDigest(repo, d) => ValidDigest(d) && ManifestRef(repo, d) in refs
  }

  ghost function After(c: Call, subjects: Subjects, refs: Refs): Refs
    requires Legal(c, subjects, refs)
  {
    match c
    case PutCall(repo, tag, root, published) =>
      Published(refs, Publishes(repo, root.digest, tag, root.subject)[..published], root)
    case DeleteTag(repo, tag) => refs - {TagRef(repo, tag)}
    case DeleteDigest(repo, d) => Spared(refs, repo, d, refs[ManifestRef(repo, d)])
  }

  lemma {:induction false} DeleteTagKeeps(refs: Refs, subjects: Subjects, repo: string, tag: string)
    requires Inv(refs, subjects) && ValidRepository(repo) && ValidTag(tag)
    ensures Inv(refs - {TagRef(repo, tag)}, subjects)
  {
    var t := TagOf(repo, tag);
    assert ValidRef(t) && Print(t) == TagRef(repo, tag);
    var now := refs - {Print(t)};
    forall r: Ref | Has(refs, r) && r != t ensures Has(now, r) { SameName(r, t); }
    hide ValidRef, Print;
    forall other ensures RepoInv(now, subjects, other) {
      forall r: Ref | r.repo == other && Has(now, r) ensures Fine(now, subjects, r) {
        assert RepoInv(refs, subjects, other) && Has(refs, r) && Fine(refs, subjects, r);
      }
    }
  }

  lemma {:induction false} CallKeeps(c: Call, subjects: Subjects, refs: Refs)
    requires Inv(refs, subjects) && SubjectsValid(subjects) && Legal(c, subjects, refs)
    ensures Inv(After(c, subjects, refs), subjects)
  {
    assert RepoInv(refs, subjects, c.repo);
    var now := After(c, subjects, refs);
    match c {
      case PutCall(repo, tag, root, published) =>
        hide RepoInv;
        PutKeeps(refs, subjects, repo, tag, root, published);
        var some := Publishes(repo, root.digest, tag, root.subject)[..published];
        PublishesValid(subjects, repo, tag, root);
        hide Publishes, Published, ValidRef;
        forall other | other != repo ensures RepoInv(now, subjects, other) {
          PutElsewhere(refs, some, root, other);
          OthersDoNotMatter(refs, now, subjects, other);
        }
      case DeleteTag(repo, tag) => DeleteTagKeeps(refs, subjects, repo, tag);
      case DeleteDigest(repo, d) =>
        assert Has(refs, ManifestOf(repo, d));
        hide RepoInv, Spared, Has;
        DeleteKeeps(refs, subjects, repo, d);
        forall other | other != repo ensures RepoInv(now, subjects, other) {
          DeleteElsewhere(refs, subjects, repo, d, other);
          OthersDoNotMatter(refs, now, subjects, other);
        }
    }
  }

  lemma {:induction false} PublishesValid(subjects: Subjects, repo: string, tag: Option<string>, root: Root)
    requires ValidRepository(repo) && ValidDigest(root.digest) && (tag.Some? ==> ValidTag(tag.value))
    requires SubjectsValid(subjects) && root.digest in subjects && root.subject == subjects[root.digest]
    ensures
      var all := Publishes(repo, root.digest, tag, root.subject);
      forall i :: 0 <= i < |all| ==> ValidRef(all[i]) && all[i].repo == repo
  {
    hide ValidRepository, ValidDigest, ValidTag;
  }

  ghost predicate Run(states: seq<Refs>, calls: seq<Call>, subjects: Subjects) {
    && |states| == |calls| + 1 && states[0] == map[]
    && forall k :: 0 <= k < |calls| ==> Legal(calls[k], subjects, states[k]) && states[k + 1] == After(calls[k], subjects, states[k])
  }

  /** Over every run of Put and Delete in which no call fails inside a Delete,
      every tag and every referrer has its manifest. */
  lemma {:induction false} RunKeeps(states: seq<Refs>, calls: seq<Call>, subjects: Subjects, k: nat)
    requires Run(states, calls, subjects) && SubjectsValid(subjects) && k <= |calls|
    ensures Inv(states[k], subjects)
  {
    if k > 0 {
      hide Inv, Legal, After;
      RunKeeps(states, calls, subjects, k - 1);
      CallKeeps(calls[k - 1], subjects, states[k - 1]);
    }
  }

  /** After a delete by digest nothing of the image is left in the repository:
      no manifest, no tag on any of its roots, no referrer reference. */
  lemma {:induction false} DeletedForGood(states: seq<Refs>, calls: seq<Call>, subjects: Subjects, k: nat, r: Ref)
    requires Run(states, calls, subjects) && SubjectsValid(subjects) && k < |calls| && calls[k].DeleteDigest?
    requires Has(states[k + 1], r) && r.repo == calls[k].repo
    ensures r.TagOf? ==> states[k + 1][Print(r)].digest != calls[k].digest
    ensures r.ManifestOf? ==> r.digest != calls[k].digest
    ensures r.ReferrerOf? ==> r.referrer != calls[k].digest
  {
    RunKeeps(states, calls, subjects, k);
    var refs, repo, d := states[k], calls[k].repo, calls[k].digest;
    assert RepoInv(refs, subjects, repo) && Has(refs, ManifestOf(repo, d));
    hide ValidRepository, ValidTag, ValidDigest;
    DeleteKeeps(refs, subjects, repo, d);
  }
}
