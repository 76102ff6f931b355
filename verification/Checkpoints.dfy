/** The managed checkpoint store: files with their recorded metadata. */
module Checkpoints {
  import opened Options

  type Bytes = seq<bv8>
  type Digest = nat

  /** A managed path is the best or the last checkpoint of a run; anything else is outside the root. */
  datatype Path = Best(run: nat) | Last(run: nat) | Outside(name: string)

  datatype Value = Text(text: string) | Number(number: real) | Sum(digest: Digest) | Name(path: Path)

  datatype Key = Format | FileName | Sha256 | SizeBytes | Score | Step | BestScore | Kind | Other(name: string)

  type Metadata = map<Key, Value>

  datatype Error = OutsideRoot | Missing | MetadataMissing | FormatMismatch | ChecksumMismatch | Incompatible

  const FORMAT_VERSION := Number(1.0)

  function Payload(metadata: Metadata, path: Path, bytes: Bytes, digest: Digest): Metadata {
    metadata + map[Format := FORMAT_VERSION, FileName := Name(path),
                   Sha256 := Sum(digest), SizeBytes := Number(|bytes| as real)]
  }

  /** Four entries are the manager's own, whatever the caller passed for them; the others are the caller's. */
  lemma PayloadMeans(metadata: Metadata, path: Path, bytes: Bytes, digest: Digest, key: Key)
    ensures var payload := Payload(metadata, path, bytes, digest);
      && payload.Keys == metadata.Keys + {Format, FileName, Sha256, SizeBytes}
      && payload[Format] == Number(1.0) && payload[FileName] == Name(path)
      && payload[Sha256] == Sum(digest) && payload[SizeBytes] == Number(|bytes| as real)
      && (key in metadata && key !in {Format, FileName, Sha256, SizeBytes} ==> payload[key] == metadata[key])
  {
    var own := map[Format := FORMAT_VERSION, FileName := Name(path),
                   Sha256 := Sum(digest), SizeBytes := Number(|bytes| as real)];
    assert own.Keys == {Format, FileName, Sha256, SizeBytes};
  }

  predicate Matches(metadata: Metadata, expected: map<Key, Option<Value>>) {
    forall key :: key in expected && expected[key].Some? ==>
      key in metadata && metadata[key] == expected[key].value
  }

  class CheckpointManager {
    const sha256: Bytes -> Digest
    var files: map<Path, Bytes>
    var meta: map<Path, Metadata>

    constructor (sha256: Bytes -> Digest)
      ensures this.sha256 == sha256 && files == map[] && meta == map[]
    {
      this.sha256 := sha256;
      files, meta := map[], map[];
    }

    /** The bytes on disk are the bytes the metadata was recorded for. */
    predicate Intact(path: Path)
      reads this
    {
      && path in files && path in meta
      && Format in meta[path] && meta[path][Format] == FORMAT_VERSION
      && Sha256 in meta[path] && meta[path][Sha256] == Sum(sha256(files[path]))
    }

    method Record(path: Path, metadata: Metadata) returns (r: Result<Metadata, Error>)
      modifies this`meta
      ensures r.Err? <==> path.Outside? || path !in files
      ensures r.Err? ==> r.error == OutsideRoot && meta == old(meta)
      ensures r.Ok? ==>
        && r.value == Payload(metadata, path, files[path], sha256(files[path]))
        && meta == old(meta)[path := r.value]
        && Intact(path)
    {
      if path.Outside? || path !in files { return Err(OutsideRoot); }
      var payload := Payload(metadata, path, files[path], sha256(files[path]));
      meta := meta[path := payload];
      r := Ok(payload);
    }

    /** Verification accepts exactly the intact, compatible, managed checkpoints. */
    method Verify(path: Path, expected: map<Key, Option<Value>>) returns (r: Result<Metadata, Error>)
      ensures r.Ok? <==> !path.Outside? && Intact(path) && Matches(meta[path], expected)
      ensures r.Ok? ==> r.value == meta[path]
    {
      if path.Outside? || path !in files { return Err(Missing); }
      if path !in meta { return Err(MetadataMissing); }
      var metadata := meta[path];
      if Format !in metadata || metadata[Format] != FORMAT_VERSION {
        return Err(FormatMismatch);
      }
      if Sha256 !in metadata || metadata[Sha256] != Sum(sha256(files[path])) {
        return Err(ChecksumMismatch);
      }
      var keys := expected.Keys;
      while keys != {}
        invariant keys <= expected.Keys
        invariant forall key :: key in expected.Keys - keys && expected[key].Some? ==>
          key in metadata && metadata[key] == expected[key].value
      {
        var key :| key in keys;
        if expected[key].Some? && (key !in metadata || metadata[key] != expected[key].value) {
          return Err(Incompatible);
        }
        keys := keys - {key};
      }
      assert expected.Keys - keys == expected.Keys;
      r := Ok(metadata);
    }

    method Promote(source: Path, destination: Path, metadata: Metadata) returns (r: Result<Metadata, Error>)
      modifies this
      ensures r.Err? <==> source.Outside? || destination.Outside? || source !in old(files)
      ensures r.Err? ==> files == old(files) && meta == old(meta)
      ensures r.Ok? ==>
        && files == old(files)[destination := old(files)[source]]
        && r.value == Payload(metadata, destination, old(files)[source], sha256(old(files)[source]))
        && meta == old(meta)[destination := r.value]
        && Intact(destination)
    {
      if source.Outside? || destination.Outside? { return Err(OutsideRoot); }
      if source !in files { return Err(Missing); }
      files := files[destination := files[source]];
      r := Record(destination, metadata);
    }

    method DiscardLast(run: nat)
      modifies this
      ensures files == old(files) - {Last(run)} && meta == old(meta) - {Last(run)}
    {
      files := files - {Last(run)};
      meta := meta - {Last(run)};
    }
  }

  ghost predicate Injective(sha256: Bytes -> Digest) {
    forall a, b :: sha256(a) == sha256(b) ==> a == b
  }

  /** With a collision-free digest, a checkpoint that still verifies holds the bytes it was recorded with. */
  lemma VerifiedBytesAreTheRecorded(manager: CheckpointManager, path: Path, metadata: Metadata, recorded: Bytes)
    requires Injective(manager.sha256)
    requires path in manager.files && path in manager.meta
    requires manager.meta[path] == Payload(metadata, path, recorded, manager.sha256(recorded))
    ensures manager.Intact(path) <==> manager.files[path] == recorded
  {
  }
}
