/** The parsed shape of manifests and indexes (oci/manifest.go). */
module OciManifest {
  import opened Wrappers

  datatype Platform = Platform(os: string, architecture: string, variant: string)

  datatype Descriptor = Descriptor(
    mediaType: string, digest: string, size: nat, attestation: bool, platform: Option<Platform>)

  /** `manifests` is None when the body has no such array. */
  datatype Manifest = Manifest(
    mediaType: string,
    config: Option<Descriptor>,
    layers: seq<Descriptor>,
    manifests: Option<seq<Descriptor>>)

  const OCI_MANIFEST := "application/vnd.oci.image.manifest.v1+json"
  const OCI_INDEX := "application/vnd.oci.image.index.v1+json"
  const DOCKER_MANIFEST_LIST := "application/vnd.docker.distribution.manifest.list.v2+json"

  predicate IsIndex(m: Manifest) {
    if m.mediaType == OCI_INDEX || m.mediaType == DOCKER_MANIFEST_LIST then true
    else m.mediaType == "" && m.manifests.Some?
  }

  function Children(m: Manifest): (r: seq<Descriptor>)
    ensures m.manifests == Some(r) || (m.manifests.None? && r == [])
  {
    if m.manifests.Some? then m.manifests.value else []
  }

  /** The blobs an image manifest needs; an index needs none. */
  function BlobDescriptors(m: Manifest): seq<Descriptor> {
    if IsIndex(m) then []
    else (if m.config.Some? then [m.config.value] else []) + m.layers
  }

  function EffectiveMediaType(m: Manifest): string {
    if m.mediaType != "" then m.mediaType
    else if IsIndex(m) then OCI_INDEX
    else OCI_MANIFEST
  }

  /** The platform asked for: same os and architecture, and the variant if one is named. */
  predicate Matches(want: Platform, have: Platform) {
    want.os == have.os && want.architecture == have.architecture && (want.variant == "" || want.variant == have.variant)
  }

  // ---- A manifest's blobs, by its fields ----------------------------------------

  /** Not an index: another media type, or none and no manifests array. */
  ghost predicate SaysImage(m: Manifest) {
    && m.mediaType != "application/vnd.oci.image.index.v1+json"
    && m.mediaType != "application/vnd.docker.distribution.manifest.list.v2+json"
    && (m.mediaType == "" ==> m.manifests.None?)
  }

  /** d is the config or a layer of an image, with the size it gives. */
  ghost predicate BlobOf(m: Manifest, d: string, size: nat) {
    && SaysImage(m)
    && (|| (m.config.Some? && m.config.value.digest == d && m.config.value.size == size)
        || exists k :: 0 <= k < |m.layers| && m.layers[k].digest == d && m.layers[k].size == size)
  }

  /** The same of the whole descriptor. */
  ghost predicate BlobDescriptorOf(m: Manifest, d: Descriptor) {
    SaysImage(m) && (m.config == Some(d) || d in m.layers)
  }

  /** The config of an image, if it has one, and all its layers are among held. */
  ghost predicate BlobsAmong(m: Manifest, held: set<string>) {
    SaysImage(m) ==>
      && (m.config.Some? ==> m.config.value.digest in held)
      && forall k :: 0 <= k < |m.layers| ==> m.layers[k].digest in held
  }

  lemma {:induction false} IndexByFields(m: Manifest)
    ensures IsIndex(m) <==> !SaysImage(m)
  {
  }

  /** BlobDescriptors lists the config and the layers of an image, and nothing else. */
  lemma {:induction false} BlobsByFields(m: Manifest, held: set<string>)
    ensures (forall k :: 0 <= k < |BlobDescriptors(m)| ==> BlobDescriptors(m)[k].digest in held) <==> BlobsAmong(m, held)
    ensures forall k :: 0 <= k < |BlobDescriptors(m)| ==>
      BlobOf(m, BlobDescriptors(m)[k].digest, BlobDescriptors(m)[k].size)
  {
    IndexByFields(m);
    hide IsIndex, SaysImage, BlobDescriptors;
    BlobsInOrder(m);
    var ds := BlobDescriptors(m);
    if !IsIndex(m) {
      var c := if m.config.Some? then 1 else 0;
      assert forall k :: 0 <= k < |m.layers| ==> m.layers[k] == ds[c + k];
    }
  }

  lemma {:induction false} BlobsInOrder(m: Manifest)
    ensures IsIndex(m) ==> BlobDescriptors(m) == []
    ensures !IsIndex(m) ==>
      var ds, c := BlobDescriptors(m), if m.config.Some? then 1 else 0;
      && |ds| == c + |m.layers| && (c == 1 ==> ds[0] == m.config.value)
      && forall k :: c <= k < |ds| ==> ds[k] == m.layers[k - c]
  {
    hide IsIndex;
  }

  lemma {:induction false} DescriptorsByFields(m: Manifest, d: Descriptor)
    ensures d in BlobDescriptors(m) <==> BlobDescriptorOf(m, d)
  {
    IndexByFields(m);
    hide IsIndex, SaysImage;
  }

  lemma {:induction false} BlobIsListed(m: Manifest, d: string, size: nat)
    requires BlobOf(m, d, size)
    ensures exists k :: 0 <= k < |BlobDescriptors(m)| && BlobDescriptors(m)[k].digest == d
  {
    IndexByFields(m);
    hide IsIndex, SaysImage;
    var ds := BlobDescriptors(m);
    var c := if m.config.Some? then 1 else 0;
    if !(m.config.Some? && m.config.value.digest == d) {
      var k :| 0 <= k < |m.layers| && m.layers[k].digest == d;
      assert ds[c + k].digest == d;
    } else {
      assert ds[0].digest == d;
    }
  }
}
