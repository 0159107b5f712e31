/**
 * Content addressing and publication of modules to Backblaze B2.
 *
 * BLAKE3 is a parameter (`Blake3`, a function of the whole input); its
 * streaming `Hasher` is modelled by the bytes it has absorbed, so that
 * feeding it piece by piece and hashing the concatenation agree by
 * construction. The B2 calls' answers, the file's modification time and
 * the reader's behaviour are inputs.
 */
module B2 {
  import opened Base
  import Hex
  import Fs

  /** A BLAKE3 digest: 32 bytes. */
  type Digest = d: seq<byte> | |d| == 32
    witness [0, 0, 0, 0, 0, 0, 0, 0, 0, 0, 0, 0, 0, 0, 0, 0, 0, 0, 0, 0, 0, 0, 0, 0, 0, 0, 0, 0, 0, 0, 0, 0]

  type Blake3 = seq<byte> -> Digest

  const ObjectExtension: string := ".wasm"
  const UriScheme: string := "b2://"

  /** `blake3::Hasher`: the bytes fed to `update` so far. */
  class Hasher {
    var absorbed: seq<byte>

    constructor ()
      ensures absorbed == []
    {
      absorbed := [];
    }

    method Update(data: seq<byte>)
      modifies this
      ensures absorbed == old(absorbed) + data
    {
      absorbed := absorbed + data;
    }

    function Finalize(blake3: Blake3): Digest
      reads this
    {
      blake3(absorbed)
    }
  }

  /** One `read` on the file: some bytes (none at the end), `Interrupted`, or another I/O error. */
  datatype ReadOutcome = Data(bytes: seq<byte>) | Interrupted | IoError(kind: string)

  /** What `copy_wide` does with a reader: the bytes it hashes, and the error it stops at, if any. */
  datatype Copied = Copied(bytes: seq<byte>, error: Option<string>)

  /** The copy loop over a reader; past the scripted reads the reader is at its end. */
  function Copy(reader: seq<ReadOutcome>): Copied
  {
    if reader == [] then Copied([], None)
    else match reader[0]
      case Data(b) =>
        if b == [] then Copied([], None)
        else var rest := Copy(reader[1..]); Copied(b + rest.bytes, rest.error)
      case Interrupted => Copy(reader[1..])
      case IoError(k) => Copied([], Some(k))
  }

  /** The result `copy_wide` returns for a reader. */
  function CopyResult(reader: seq<ReadOutcome>): Result<nat, string>
  {
    var c := Copy(reader);
    if c.error.Some? then Err(c.error.value) else Ok(|c.bytes|)
  }

  /** An `Interrupted` read anywhere changes nothing: it is retried, not counted and not hashed. */
  lemma {:induction false} InterruptedIsRetried(reader: seq<ReadOutcome>, i: nat)
    requires i <= |reader|
    ensures Copy(reader[..i] + [Interrupted] + reader[i..]) == Copy(reader)
    decreases i
  {
    var r := reader[..i] + [Interrupted] + reader[i..];
    if i == 0 {
      assert r[1..] == reader;
    } else {
      InterruptedIsRetried(reader[1..], i - 1);
      assert r[0] == reader[0];
      assert r[1..] == reader[1..][..i - 1] + [Interrupted] + reader[1..][i - 1..];
    }
  }

  /** A reader whose successful reads are `chunks`, in order, ending at end of file. */
  function Chunked(chunks: seq<seq<byte>>): seq<ReadOutcome>
  {
    if chunks == [] then [] else [Data(chunks[0])] + Chunked(chunks[1..])
  }

  /** The total `copy_wide` returns is the length of all reads up to the first empty one. */
  lemma {:induction false} CopyCountsEveryByte(chunks: seq<seq<byte>>)
    requires forall k :: 0 <= k < |chunks| ==> chunks[k] != []
    ensures Copy(Chunked(chunks)) == Copied(Flatten(chunks), None)
    ensures CopyResult(Chunked(chunks)) == Ok(|Flatten(chunks)|)
  {
    if chunks != [] {
      CopyCountsEveryByte(chunks[1..]);
      assert Chunked(chunks)[1..] == Chunked(chunks[1..]);
    }
  }

  /** A failing read other than `Interrupted` is returned as soon as it happens. */
  lemma {:induction false} CopyStopsAtError(chunks: seq<seq<byte>>, kind: string, rest: seq<ReadOutcome>)
    requires forall k :: 0 <= k < |chunks| ==> chunks[k] != []
    ensures Copy(Chunked(chunks) + [IoError(kind)] + rest) == Copied(Flatten(chunks), Some(kind))
    ensures CopyResult(Chunked(chunks) + [IoError(kind)] + rest) == Err(kind)
  {
    if chunks != [] {
      CopyStopsAtError(chunks[1..], kind, rest);
      assert (Chunked(chunks) + [IoError(kind)] + rest)[1..] == Chunked(chunks[1..]) + [IoError(kind)] + rest;
    } else {
      assert ([] + [IoError(kind)] + rest)[0] == IoError(kind);
    }
  }

  /** `copy_wide`: feeds every byte read to the hasher, in order, and returns how many there were. */
  method CopyWide(reader: seq<ReadOutcome>, hasher: Hasher) returns (r: Result<nat, string>)
    modifies hasher
    ensures hasher.absorbed == old(hasher.absorbed) + Copy(reader).bytes
    ensures r == CopyResult(reader)
  {
    var total: nat := 0;
    var i := 0;
    ghost var start := hasher.absorbed;
    ghost var fed: seq<byte> := [];
    while true
      invariant 0 <= i <= |reader|
      invariant hasher.absorbed == start + fed
      invariant Copy(reader) == Copied(fed + Copy(reader[i..]).bytes, Copy(reader[i..]).error)
      invariant total == |fed|
      decreases |reader| - i
    {
      var outcome := if i < |reader| then reader[i] else Data([]);
      assert i < |reader| ==> reader[i..][0] == reader[i] && reader[i..][1..] == reader[i + 1..];
      match outcome {
        case Data(b) =>
          if b == [] {
            assert Copy(reader[i..]) == Copied([], None);
            assert fed + [] == fed;
            return Ok(total);
          }
          hasher.Update(b);
          total := total + |b|;
          fed := fed + b;
        case Interrupted =>
        case IoError(k) =>
          assert Copy(reader[i..]) == Copied([], Some(k));
          assert fed + [] == fed;
          return Err(k);
      }
      i := i + 1;
    }
  }

  /**
   * The reader reads the file `content`: the bytes it yields before stopping
   * are the start of the file, and all of it when it stops at the end.
   */
  predicate Yields(reader: seq<ReadOutcome>, content: seq<byte>)
  {
    var c := Copy(reader);
    IsPrefix(c.bytes, content) && (c.error.None? ==> c.bytes == content)
  }

  /** The error `File::open` reports for a missing file. */
  const NotFound: string := "No such file or directory (os error 2)"

  /** Lower-case hexadecimal of the digest of the whole file, and its size. */
  function HashOf(content: seq<byte>, blake3: Blake3): (string, nat)
  {
    (Hex.Encode(blake3(content)), |content|)
  }

  /** `hash`: opens the file, streams it through a fresh hasher, hex-encodes the digest. */
  method Hash(disk: Fs.Disk, filename: string, reader: seq<ReadOutcome>, blake3: Blake3)
    returns (r: Result<(string, nat), string>)
    requires filename in disk.files ==> Yields(reader, disk.files[filename])
    ensures filename !in disk.files ==> r == Err(NotFound)
    ensures filename in disk.files ==>
      r == if Copy(reader).error.Some? then Err(Copy(reader).error.value)
           else Ok(HashOf(disk.files[filename], blake3))
  {
    if filename !in disk.files {
      return Err(NotFound);
    }
    var hasher := new Hasher();
    var size := CopyWide(reader, hasher);
    if size.Err? {
      return Err(size.error);
    }
    assert hasher.absorbed == disk.files[filename];
    var digest := hasher.Finalize(blake3);
    return Ok((Hex.Encode(digest), size.value));
  }

  /** The hex part of `hash`'s answer is 64 lower-case digits that determine the digest. */
  lemma HashShape(content: seq<byte>, blake3: Blake3)
    ensures |HashOf(content, blake3).0| == 64
    ensures forall i :: 0 <= i < 64 ==> Hex.IsLowerHexDigit(HashOf(content, blake3).0[i])
    ensures Hex.Decode(HashOf(content, blake3).0) == Some(blake3(content))
    ensures HashOf(content, blake3).1 == |content|
  {
    Hex.EncodeShape(blake3(content));
    Hex.DecodeEncode(blake3(content));
  }

  // ---------------------------------------------------------------------------
  // Names derived in `upload`

  /** The B2 object name: the hex digest with the module extension. */
  function ObjectName(hexDigest: string): string
  {
    hexDigest + ObjectExtension
  }

  /** The URI `upload` returns for a file with this content. */
  function ContentUri(content: seq<byte>, blake3: Blake3): string
  {
    UriScheme + ObjectName(HashOf(content, blake3).0)
  }

  /** The digest a content URI names, or None when the string is not such a URI. */
  function ParseUri(uri: string): Option<Digest>
  {
    if |uri| != |UriScheme| + 64 + |ObjectExtension| then None
    else if uri[..|UriScheme|] != UriScheme || uri[|UriScheme| + 64..] != ObjectExtension then None
    else match Hex.Decode(uri[|UriScheme|..|UriScheme| + 64])
      case Some(d) => if |d| == 32 then Some(d) else None
      case None => None
  }

  /** The URI names the content's digest and can be read back. */
  lemma {:induction false} ParseContentUri(content: seq<byte>, blake3: Blake3)
    ensures ParseUri(ContentUri(content, blake3)) == Some(blake3(content))
  {
    var h := HashOf(content, blake3).0;
    HashShape(content, blake3);
    var uri := ContentUri(content, blake3);
    assert uri[..|UriScheme|] == UriScheme;
    assert uri[|UriScheme|..|UriScheme| + 64] == h;
    assert uri[|UriScheme| + 64..] == ObjectExtension;
  }

  /**
   * Content addressing: two files get the same URI exactly when their
   * digests agree; byte-identical files always do.
   */
  lemma SameUriIffSameDigest(c1: seq<byte>, c2: seq<byte>, blake3: Blake3)
    ensures ContentUri(c1, blake3) == ContentUri(c2, blake3) <==> blake3(c1) == blake3(c2)
  {
    if ContentUri(c1, blake3) == ContentUri(c2, blake3) {
      ParseContentUri(c1, blake3);
      ParseContentUri(c2, blake3);
    }
  }

  /** `last_modified_millis`: whole seconds since the epoch, times 1000. */
  function LastModifiedMillis(mtimeNanos: nat): (ms: nat)
    ensures ms % 1000 == 0
    ensures ms * 1_000_000 <= mtimeNanos < ms * 1_000_000 + 1_000_000_000
  {
    (mtimeNanos / 1_000_000_000) * 1000
  }

  // ---------------------------------------------------------------------------
  // The upload sequence

  datatype Sha1Variant = HexAtEnd

  /** The upload metadata sent to B2. */
  datatype FileParameters = FileParameters(
    filePath: string,
    fileSize: nat,
    contentType: string,
    contentSha1: Sha1Variant,
    lastModifiedMillis: nat)

  /** The remote calls, in the order they are made. */
  datatype Call = Authenticate | GetUploadUrl | UploadFile(params: FileParameters)

  /** B2's answers to the three calls (None: success) and the file's modification time. */
  datatype Remote = Remote(
    authError: Option<string>,
    uploadUrlError: Option<string>,
    uploadError: Option<string>,
    mtimeNanos: int)

  datatype UploadError = Backblaze(reason: string) | Io(reason: string) | BeforeEpoch

  /** The metadata of the one upload a successful run makes. */
  function ParamsFor(content: seq<byte>, contentType: string, mtimeNanos: nat, blake3: Blake3): FileParameters
  {
    FileParameters(ObjectName(HashOf(content, blake3).0), |content|, contentType, HexAtEnd,
                   LastModifiedMillis(mtimeNanos))
  }

  /**
   * `upload`: authenticate, get an upload URL, hash the file, then upload it
   * under its content name. Each failure ends the sequence with its own error,
   * and the file is uploaded exactly when every earlier step succeeded.
   */
  method Upload(disk: Fs.Disk, filename: string, contentType: string, remote: Remote,
                reader: seq<ReadOutcome>, blake3: Blake3)
    returns (r: Result<string, UploadError>, calls: seq<Call>)
    requires filename in disk.files ==> Yields(reader, disk.files[filename])
    ensures remote.authError.Some? ==> r == Err(Backblaze(remote.authError.value)) && calls == [Authenticate]
    ensures remote.authError.None? && remote.uploadUrlError.Some? ==>
              r == Err(Backblaze(remote.uploadUrlError.value)) && calls == [Authenticate, GetUploadUrl]
    ensures r.Ok? <==>
              && remote.authError.None? && remote.uploadUrlError.None? && remote.uploadError.None?
              && filename in disk.files && Copy(reader).error.None? && remote.mtimeNanos >= 0
    ensures r.Ok? ==>
              && r.value == ContentUri(disk.files[filename], blake3)
              && calls == [Authenticate, GetUploadUrl,
                           UploadFile(ParamsFor(disk.files[filename], contentType, remote.mtimeNanos, blake3))]
    ensures |calls| <= 3 && (forall k :: 0 <= k < |calls| ==> (k == 0 <==> calls[k] == Authenticate))
    ensures |calls| == 3 ==> calls[1] == GetUploadUrl && calls[2].UploadFile?
    ensures remote.authError.None? && remote.uploadUrlError.None? ==>
      if filename !in disk.files then r == Err(Io(NotFound)) && calls == [Authenticate, GetUploadUrl]
      else if Copy(reader).error.Some? then
        r == Err(Io(Copy(reader).error.value)) && calls == [Authenticate, GetUploadUrl]
      else if remote.mtimeNanos < 0 then r == Err(BeforeEpoch) && calls == [Authenticate, GetUploadUrl]
      else
        && calls == [Authenticate, GetUploadUrl,
                     UploadFile(ParamsFor(disk.files[filename], contentType, remote.mtimeNanos, blake3))]
        && r == if remote.uploadError.Some? then Err(Backblaze(remote.uploadError.value))
                else Ok(ContentUri(disk.files[filename], blake3))
  {
    calls := [Authenticate];
    if remote.authError.Some? {
      return Err(Backblaze(remote.authError.value)), calls;
    }
    calls := calls + [GetUploadUrl];
    if remote.uploadUrlError.Some? {
      return Err(Backblaze(remote.uploadUrlError.value)), calls;
    }
    if filename !in disk.files {
      return Err(Io(NotFound)), calls;
    }
    var hashed := Hash(disk, filename, reader, blake3);
    if hashed.Err? {
      return Err(Io(hashed.error)), calls;
    }
    var (hex, size) := hashed.value;
    var name := ObjectName(hex);
    if remote.mtimeNanos < 0 {
      return Err(BeforeEpoch), calls;
    }
    var modf := LastModifiedMillis(remote.mtimeNanos);
    var param := FileParameters(name, size, contentType, HexAtEnd, modf);
    calls := calls + [UploadFile(param)];
    if remote.uploadError.Some? {
      return Err(Backblaze(remote.uploadError.value)), calls;
    }
    return Ok(UriScheme + name), calls;
  }
}
