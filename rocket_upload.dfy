/**
 * The multipart request guard of the `rocket_upload` library: it takes the
 * boundary from the Content-Type header, walks the multipart entries,
 * keeps each entry without a filename as a UTF-8 text part and streams each
 * entry with a filename into the file `Paths.Join(TmpPath, filename)`, which
 * lies under `TmpPath` only when the filename is relative.
 *
 * The multipart framing itself is an input (`frame`): the model starts from
 * the entries it yields. Each entry carries what its reader returns, read by
 * read, and what the filesystem answers when the entry's staged file is
 * created and written.
 */
module RocketUpload {
  import opened Base
  import Utf8
  import Paths
  import Fs

  const TmpPath: string := "/tmp/rust_upload/"
  const BoundaryKey: string := "boundary="

  const UnprocessableEntity: nat := 422
  const InternalServerError: nat := 500
  const NotUtf8Message: string := ": Data can not read as UTF-8"

  /** One `read` on an entry's data: the bytes it returned (none at the end) or an I/O error. */
  datatype Read = Chunk(data: seq<byte>) | ReadError(msg: string)

  /**
   * A multipart entry: its field name, its filename if the part declared one,
   * its successive chunks, and the filesystem's answers for its staged file:
   * `createError` for `File::create`, `writeErrors[i]` for the write of read `i`
   * (a write index past the end of `writeErrors` succeeds).
   */
  datatype Entry = Entry(
    name: string,
    filename: Option<string>,
    chunks: seq<Read>,
    createError: Option<string>,
    writeErrors: seq<Option<string>>)

  datatype TextPart = TextPart(key: string, value: string)
  datatype FilePart = FilePart(name: string, path: string, filename: string)
  datatype MultipartDatas = MultipartDatas(texts: seq<TextPart>, files: seq<FilePart>)

  /** A failed outcome: HTTP status and message. */
  datatype Failure = Failure(status: nat, message: string)

  datatype Outcome = Success(datas: MultipartDatas) | Failed(failure: Failure)

  // ---------------------------------------------------------------------------
  // Boundary extraction

  /** `pat` occurs in `s` at position `j`. */
  predicate OccursAt(s: string, pat: string, j: nat)
  {
    j + |pat| <= |s| && s[j..j + |pat|] == pat
  }

  /** The first position at or after `from` where `pat` occurs in `s`. */
  function FindFrom(s: string, pat: string, from: nat): (r: Option<nat>)
    requires from <= |s|
    ensures r.Some? ==> from <= r.value && OccursAt(s, pat, r.value)
    ensures r.Some? ==> forall j :: from <= j < r.value ==> !OccursAt(s, pat, j)
    ensures r.None? ==> forall j: nat :: from <= j ==> !OccursAt(s, pat, j)
    decreases |s| - from
  {
    if from + |pat| > |s| then None
    else if s[from..from + |pat|] == pat then Some(from)
    else FindFrom(s, pat, from + 1)
  }

  /** `str::find`: the first occurrence of `pat` in `s`. */
  function Find(s: string, pat: string): Option<nat>
  {
    FindFrom(s, pat, 0)
  }

  predicate HasBoundary(contentType: string)
  {
    Find(contentType, BoundaryKey).Some?
  }

  /**
   * The boundary: everything after the first `boundary=` of the Content-Type
   * value, taken raw (no quote removal, no stop at a following parameter).
   * A header without `boundary=` makes the source panic, hence the requires.
   */
  function Boundary(contentType: string): (b: string)
    requires HasBoundary(contentType)
    ensures |b| + |BoundaryKey| <= |contentType|
    ensures contentType[|contentType| - |b| - |BoundaryKey|..] == BoundaryKey + b
    ensures forall j :: 0 <= j < |contentType| - |b| - |BoundaryKey| ==> !OccursAt(contentType, BoundaryKey, j)
  {
    var i := Find(contentType, BoundaryKey).value;
    var b := contentType[i + |BoundaryKey|..];
    assert contentType[i..] == contentType[i..i + |BoundaryKey|] + b;
    b
  }

  /** The boundary is determined by its characterisation: it is the only such suffix. */
  lemma BoundaryUnique(contentType: string, pre: string, b: string)
    requires contentType == pre + BoundaryKey + b
    requires forall j :: 0 <= j < |pre| ==> !OccursAt(contentType, BoundaryKey, j)
    ensures HasBoundary(contentType) && Boundary(contentType) == b
  {
    assert contentType[|pre|..|pre| + |BoundaryKey|] == BoundaryKey;
    assert OccursAt(contentType, BoundaryKey, |pre|);
    var i := Find(contentType, BoundaryKey).value;
    assert i == |pre|;
    assert contentType[i + |BoundaryKey|..] == b;
  }

  // ---------------------------------------------------------------------------
  // Reading an entry

  /** What the reader returns at read number `i`: past the scripted chunks, end of data. */
  function ReadAt(chunks: seq<Read>, i: nat): Read
  {
    if i < |chunks| then chunks[i] else Chunk([])
  }

  function PrependBytes(prefix: seq<byte>, r: Result<seq<byte>, string>): Result<seq<byte>, string>
  {
    match r
    case Ok(rest) => Ok(prefix + rest)
    case Err(m) => Err(m)
  }

  lemma PrependBytesAssoc(a: seq<byte>, b: seq<byte>, r: Result<seq<byte>, string>)
    ensures PrependBytes(a, PrependBytes(b, r)) == PrependBytes(a + b, r)
    ensures PrependBytes([], r) == r
  {
    if r.Ok? {
      assert a + (b + r.value) == (a + b) + r.value;
      assert [] + r.value == r.value;
    }
  }

  /** The text read loop from read `i` on: all bytes up to the first empty read, or the first error. */
  function CollectFrom(chunks: seq<Read>, i: nat): Result<seq<byte>, string>
    decreases |chunks| - i
  {
    if i >= |chunks| then Ok([])
    else match chunks[i]
      case ReadError(m) => Err(m)
      case Chunk(d) => if d == [] then Ok([]) else PrependBytes(d, CollectFrom(chunks, i + 1))
  }

  function CollectText(chunks: seq<Read>): Result<seq<byte>, string>
  {
    CollectFrom(chunks, 0)
  }

  function WriteErrorAt(e: Entry, i: nat): Option<string>
  {
    if i < |e.writeErrors| then e.writeErrors[i] else None
  }

  /** How streaming a file entry into its staged file ends. */
  datatype Streamed = Written(data: seq<byte>) | ReadFailed(msg: string) | WriteFailed(msg: string)

  function PrependWritten(prefix: seq<byte>, r: Streamed): Streamed
  {
    if r.Written? then Written(prefix + r.data) else r
  }

  /** The file read/write loop from read `i` on. */
  function StreamFrom(e: Entry, i: nat): Streamed
    decreases |e.chunks| - i
  {
    if i >= |e.chunks| then Written([])
    else match e.chunks[i]
      case ReadError(m) => ReadFailed(m)
      case Chunk(d) =>
        if d == [] then Written([])
        else if WriteErrorAt(e, i).Some? then WriteFailed(WriteErrorAt(e, i).value)
        else PrependWritten(d, StreamFrom(e, i + 1))
  }

  function Stream(e: Entry): Streamed
  {
    StreamFrom(e, 0)
  }

  // ---------------------------------------------------------------------------
  // Staged paths

  /** The staged file a part with this filename is written to: `TMP_PATH` joined with it. */
  function StagedPath(filename: string): string
  {
    Paths.Join(TmpPath, filename)
  }

  /** The path the source records in its `FilePart`: plain string concatenation. */
  function RecordedPath(filename: string): string
  {
    TmpPath + filename
  }

  /** For a relative filename the recorded path is the staged file. */
  lemma RecordedPathIsStagedPath(filename: string)
    requires !Paths.IsAbsolute(filename)
    ensures RecordedPath(filename) == StagedPath(filename)
  {
  }

  /**
   * For an absolute filename they differ: `Path::join` replaces the base, so
   * the bytes go to the filename itself, and the recorded path is another
   * string.
   */
  lemma AbsoluteFilenameEscapes(filename: string)
    requires Paths.IsAbsolute(filename)
    ensures StagedPath(filename) == filename
    ensures RecordedPath(filename) != StagedPath(filename)
  {
    assert |RecordedPath(filename)| > |filename|;
  }

  /**
   * Which path a pushed `FilePart` records: the source concatenates
   * `TMP_PATH` and the filename (`Concatenated`); recording the file that
   * was actually written is `Joined`.
   */
  datatype Recording = Concatenated | Joined

  function PartPath(rec: Recording, filename: string): string
  {
    if rec == Concatenated then RecordedPath(filename) else StagedPath(filename)
  }

  // ---------------------------------------------------------------------------
  // What one entry does

  /** The failure an entry records in `err_out`, if any. */
  function EntryFailure(e: Entry): Option<Failure>
  {
    match e.filename
    case None =>
      (match CollectText(e.chunks)
       case Err(m) => Some(Failure(UnprocessableEntity, m))
       case Ok(bytes) =>
         if Utf8.Decode(bytes).None? then Some(Failure(UnprocessableEntity, NotUtf8Message)) else None)
    case Some(_) =>
      if e.createError.Some? then Some(Failure(InternalServerError, e.createError.value))
      else match Stream(e)
        case Written(_) => None
        case ReadFailed(m) => Some(Failure(UnprocessableEntity, m))
        case WriteFailed(m) => Some(Failure(InternalServerError, m))
  }

  /** The text part an entry pushes, if any. */
  function TextOf(e: Entry): Option<TextPart>
  {
    if e.filename.Some? || CollectText(e.chunks).Err? then None
    else match Utf8.Decode(CollectText(e.chunks).value)
      case None => None
      case Some(v) => Some(TextPart(e.name, v))
  }

  /** The file part an entry pushes, if any. */
  function FileOf(e: Entry, rec: Recording): Option<FilePart>
  {
    if e.filename.None? || e.createError.Some? || !Stream(e).Written? then None
    else Some(FilePart(e.name, PartPath(rec, e.filename.value), e.filename.value))
  }

  /** The filesystem after an entry has run. */
  function EntryDisk(fs: map<string, seq<byte>>, e: Entry): map<string, seq<byte>>
  {
    if e.filename.None? || e.createError.Some? then fs
    else
      var path := StagedPath(e.filename.value);
      match Stream(e)
      case Written(d) => fs[path := d]
      case ReadFailed(_) => fs - {path}
      case WriteFailed(_) => fs - {path}
  }

  function OptionToSeq<T>(o: Option<T>): seq<T>
  {
    if o.Some? then [o.value] else []
  }

  /** The guard's local state between entries. */
  datatype State = State(
    texts: seq<TextPart>,
    files: seq<FilePart>,
    errOut: Option<Failure>,
    fs: map<string, seq<byte>>)

  function Step(st: State, e: Entry, rec: Recording): State
  {
    State(
      st.texts + OptionToSeq(TextOf(e)),
      st.files + OptionToSeq(FileOf(e, rec)),
      if EntryFailure(e).Some? then EntryFailure(e) else st.errOut,
      EntryDisk(st.fs, e))
  }

  /** The state after `foreach_entry` has run over `es`. */
  function Run(st: State, es: seq<Entry>, rec: Recording): State
    decreases |es|
  {
    if es == [] then st else Step(Run(st, es[..|es| - 1], rec), es[|es| - 1], rec)
  }

  function Start(fs: map<string, seq<byte>>): State
  {
    State([], [], None, fs)
  }

  function PathsOf(files: seq<FilePart>): set<string>
  {
    set k | 0 <= k < |files| :: files[k].path
  }

  // ---------------------------------------------------------------------------
  // Properties of a single entry

  /** An entry either records a failure or pushes exactly one part of its kind. */
  lemma EntryOutcomes(e: Entry, rec: Recording)
    ensures EntryFailure(e).None? <==> (TextOf(e).Some? || FileOf(e, rec).Some?)
    ensures TextOf(e).Some? ==> e.filename.None? && FileOf(e, rec).None?
    ensures FileOf(e, rec).Some? ==> e.filename.Some? && TextOf(e).None?
  {
  }

  /**
   * A text part is pushed exactly when the entry has no filename, all its chunks
   * up to the end succeed and their bytes are well-formed UTF-8; the part is
   * keyed by the entry name and its value encodes to exactly those bytes.
   */
  lemma TextOfMeaning(e: Entry, t: TextPart)
    ensures TextOf(e) == Some(t) <==>
      && e.filename.None?
      && CollectText(e.chunks).Ok?
      && Utf8.WellFormed(CollectText(e.chunks).value)
      && t.key == e.name
      && Utf8.Encode(t.value) == CollectText(e.chunks).value
    ensures e.filename.None? && CollectText(e.chunks).Err? ==>
      EntryFailure(e) == Some(Failure(UnprocessableEntity, CollectText(e.chunks).error))
  {
    if e.filename.None? && CollectText(e.chunks).Ok? {
      var bytes := CollectText(e.chunks).value;
      Utf8.DecodeSucceedsIffWellFormed(bytes);
      if Utf8.Decode(bytes).Some? {
        Utf8.EncodeDecode(bytes);
        if Utf8.Encode(t.value) == bytes {
          Utf8.DecodeEncode(t.value);
        }
      }
    }
  }

  /** A text entry whose bytes are not UTF-8 records 422 and pushes nothing. */
  lemma {:induction false} MalformedTextFails(e: Entry, rec: Recording)
    requires e.filename.None? && CollectText(e.chunks).Ok? && !Utf8.WellFormed(CollectText(e.chunks).value)
    ensures EntryFailure(e) == Some(Failure(UnprocessableEntity, NotUtf8Message))
    ensures TextOf(e).None? && FileOf(e, rec).None?
  {
    Utf8.DecodeSucceedsIffWellFormed(CollectText(e.chunks).value);
  }

  /** The status of a file entry's failure: create or write failures are 500, read failures 422. */
  lemma FileFailureStatus(e: Entry, fs: map<string, seq<byte>>)
    requires e.filename.Some?
    ensures e.createError.Some? ==> EntryFailure(e) == Some(Failure(InternalServerError, e.createError.value))
    ensures e.createError.None? && Stream(e).ReadFailed? ==>
              EntryFailure(e) == Some(Failure(UnprocessableEntity, Stream(e).msg))
    ensures e.createError.None? && Stream(e).WriteFailed? ==>
              EntryFailure(e) == Some(Failure(InternalServerError, Stream(e).msg))
    ensures e.createError.None? && !Stream(e).Written? ==> StagedPath(e.filename.value) !in EntryDisk(fs, e)
    ensures e.createError.Some? ==> EntryDisk(fs, e) == fs
  {
  }

  /** Reads that return the byte strings `ds`, one each. */
  function Chunks(ds: seq<seq<byte>>): seq<Read>
  {
    if ds == [] then [] else [Chunk(ds[0])] + Chunks(ds[1..])
  }

  /** The text read loop from read `i + 1` on is the loop from read `i` on once the first read is gone. */
  lemma {:induction false} CollectFromShift(c: seq<Read>, i: nat)
    requires c != []
    ensures CollectFrom(c, i + 1) == CollectFrom(c[1..], i)
    decreases |c| - i
  {
    if i + 1 < |c| {
      assert c[i + 1] == c[1..][i];
      CollectFromShift(c, i + 1);
    }
  }

  /**
   * The text read loop keeps every byte: non-empty reads `ds` followed by the
   * end of data give their concatenation; a read error after them is the result.
   */
  lemma {:induction false} TextReadsEveryByte(ds: seq<seq<byte>>, rest: seq<Read>)
    requires forall k :: 0 <= k < |ds| ==> ds[k] != []
    ensures rest == [] || rest[0] == Chunk([]) ==> CollectText(Chunks(ds) + rest) == Ok(Flatten(ds))
    ensures rest != [] && rest[0].ReadError? ==> CollectText(Chunks(ds) + rest) == Err(rest[0].msg)
    decreases |ds|
  {
    var c := Chunks(ds) + rest;
    if ds == [] {
      assert c == rest;
    } else {
      TextReadsEveryByte(ds[1..], rest);
      assert c == [Chunk(ds[0])] + (Chunks(ds[1..]) + rest);
      assert c[1..] == Chunks(ds[1..]) + rest;
      CollectFromShift(c, 0);
      assert CollectText(c) == PrependBytes(ds[0], CollectText(c[1..]));
    }
  }

  lemma PrependWrittenAssoc(a: seq<byte>, b: seq<byte>, r: Streamed)
    ensures PrependWritten(a, PrependWritten(b, r)) == PrependWritten(a + b, r)
    ensures PrependWritten([], r) == r
  {
    if r.Written? {
      assert a + (b + r.data) == (a + b) + r.data;
      assert [] + r.data == r.data;
    }
  }

  /** The entry as its reader and file see it after the first read and its write. */
  function Advance(e: Entry): Entry
    requires e.chunks != []
  {
    e.(chunks := e.chunks[1..], writeErrors := if e.writeErrors == [] then [] else e.writeErrors[1..])
  }

  lemma AdvanceWriteErrors(e: Entry, i: nat)
    requires e.chunks != []
    ensures WriteErrorAt(Advance(e), i) == WriteErrorAt(e, i + 1)
  {
  }

  /** The file read/write loop from read `i + 1` on is the loop from read `i` on of the advanced entry. */
  lemma {:induction false} StreamFromShift(e: Entry, i: nat)
    requires e.chunks != []
    ensures StreamFrom(e, i + 1) == StreamFrom(Advance(e), i)
    decreases |e.chunks| - i
  {
    if i + 1 < |e.chunks| {
      assert e.chunks[i + 1] == Advance(e).chunks[i];
      AdvanceWriteErrors(e, i);
      StreamFromShift(e, i + 1);
    }
  }

  /**
   * The file read/write loop writes every byte: non-empty reads `ds`, each
   * written without error, followed by the end of data leave their
   * concatenation; a read error or a write error right after them is the result.
   */
  lemma {:induction false} FileStreamsEveryByte(e: Entry, ds: seq<seq<byte>>, rest: seq<Read>)
    requires e.chunks == Chunks(ds) + rest
    requires forall k :: 0 <= k < |ds| ==> ds[k] != [] && WriteErrorAt(e, k).None?
    ensures rest == [] || rest[0] == Chunk([]) ==> Stream(e) == Written(Flatten(ds))
    ensures rest != [] && rest[0].ReadError? ==> Stream(e) == ReadFailed(rest[0].msg)
    ensures rest != [] && rest[0].Chunk? && rest[0].data != [] && WriteErrorAt(e, |ds|).Some? ==>
              Stream(e) == WriteFailed(WriteErrorAt(e, |ds|).value)
    decreases |ds|
  {
    if ds == [] {
      assert e.chunks == rest;
      if rest == [] || rest[0] == Chunk([]) {
        assert Flatten(ds) == [];
      }
    } else {
      var e' := Advance(e);
      assert e.chunks == [Chunk(ds[0])] + (Chunks(ds[1..]) + rest);
      assert e'.chunks == Chunks(ds[1..]) + rest;
      forall k | 0 <= k < |ds[1..]| ensures ds[1..][k] != [] && WriteErrorAt(e', k).None? {
        AdvanceWriteErrors(e, k);
      }
      AdvanceWriteErrors(e, |ds| - 1);
      FileStreamsEveryByte(e', ds[1..], rest);
      StreamFromShift(e, 0);
      assert e.chunks[0] == Chunk(ds[0]);
      assert Stream(e) == PrependWritten(ds[0], Stream(e'));
    }
  }

  // ---------------------------------------------------------------------------
  // Properties of the whole walk

  /** The walk runs the closure on the entries one after another. */
  lemma {:induction false} RunAppend(st: State, es: seq<Entry>, e: Entry, rec: Recording)
    ensures Run(st, es + [e], rec) == Step(Run(st, es, rec), e, rec)
  {
    assert (es + [e])[..|es|] == es;
  }

  /** The outcome after a nonempty walk is the last entry's failure, or the one before. */
  lemma RunErrStep(st: State, es: seq<Entry>, rec: Recording)
    requires es != []
    ensures var last := EntryFailure(es[|es| - 1]);
      Run(st, es, rec).errOut == if last.Some? then last else Run(st, es[..|es| - 1], rec).errOut
  {
  }

  /** Every entry runs, whatever an earlier one recorded: the outcome is clean exactly when no entry failed. */
  lemma {:induction false} RunSucceedsIffNoEntryFails(st: State, es: seq<Entry>, rec: Recording)
    requires st.errOut.None?
    ensures Run(st, es, rec).errOut.None? <==> forall i :: 0 <= i < |es| ==> EntryFailure(es[i]).None?
    decreases |es|
  {
    if es != [] {
      var n := |es| - 1;
      var init := es[..n];
      RunSucceedsIffNoEntryFails(st, init, rec);
      assert forall i :: 0 <= i < |init| ==> init[i] == es[i];
      RunErrStep(st, es, rec);
      if EntryFailure(es[n]).None? {
        assert Run(st, es, rec).errOut == Run(st, init, rec).errOut;
      } else {
        assert Run(st, es, rec).errOut.Some?;
      }
    }
  }

  /** The failure reported is the one recorded by the last failing entry. */
  lemma {:induction false} RunReportsLastFailure(st: State, es: seq<Entry>, rec: Recording)
    requires st.errOut.None? && Run(st, es, rec).errOut.Some?
    ensures exists i :: 0 <= i < |es| && EntryFailure(es[i]) == Run(st, es, rec).errOut
                        && forall j :: i < j < |es| ==> EntryFailure(es[j]).None?
    decreases |es|
  {
    var n := |es| - 1;
    var init := es[..n];
    if EntryFailure(es[n]).None? {
      RunReportsLastFailure(st, init, rec);
      var i :| 0 <= i < |init| && EntryFailure(init[i]) == Run(st, init, rec).errOut
               && forall j :: i < j < |init| ==> EntryFailure(init[j]).None?;
      assert EntryFailure(es[i]) == Run(st, es, rec).errOut;
      forall j | i < j < |es| ensures EntryFailure(es[j]).None? {
        if j < n { assert init[j] == es[j]; }
      }
    } else {
      assert EntryFailure(es[n]) == Run(st, es, rec).errOut;
    }
  }

  /** The values present in `os`, in order. */
  function Somes<T>(os: seq<Option<T>>): seq<T>
    decreases |os|
  {
    if os == [] then [] else Somes(os[..|os| - 1]) + OptionToSeq(os[|os| - 1])
  }

  /**
   * `idx` lists, in strictly increasing order, exactly the positions of `os`
   * that hold a value, and `parts[k]` is the value at position `idx[k]`.
   */
  ghost predicate Enumerates<T>(idx: seq<nat>, parts: seq<T>, os: seq<Option<T>>)
  {
    && |idx| == |parts|
    && (forall k :: 0 <= k < |idx| ==> idx[k] < |os| && os[idx[k]] == Some(parts[k]))
    && (forall k, l :: 0 <= k < l < |idx| ==> idx[k] < idx[l])
    && (forall i :: 0 <= i < |os| && os[i].Some? ==> i in idx)
  }

  /** The positions of `os` that hold a value, in increasing order. */
  function Positions<T>(os: seq<Option<T>>): seq<nat>
    decreases |os|
  {
    if os == [] then [] else Positions(os[..|os| - 1]) + (if os[|os| - 1].Some? then [|os| - 1] else [])
  }

  /** One more position keeps an enumeration, with that position added when it holds a value. */
  lemma EnumeratesExtend<T>(idx: seq<nat>, parts: seq<T>, os: seq<Option<T>>)
    requires os != [] && Enumerates(idx, parts, os[..|os| - 1])
    ensures Enumerates(idx + (if os[|os| - 1].Some? then [|os| - 1] else []), parts + OptionToSeq(os[|os| - 1]), os)
  {
    var n := |os| - 1;
    var init := os[..n];
    assert forall i :: 0 <= i < n ==> os[i] == init[i];
    if os[n].Some? {
      var idx' := idx + [n];
      var parts' := parts + [os[n].value];
      forall k | 0 <= k < |idx'| ensures idx'[k] < |os| && os[idx'[k]] == Some(parts'[k]) {
        if k < |idx| {
          assert idx'[k] == idx[k] && parts'[k] == parts[k];
        }
      }
      forall i | 0 <= i < |os| && os[i].Some? ensures i in idx' {
        if i < n {
          assert i in idx;
        } else {
          assert idx'[|idx|] == i;
        }
      }
      assert Enumerates(idx', parts', os);
    } else {
      assert idx + [] == idx;
      assert parts + [] == parts;
    }
  }

  /** `Positions` enumerates the present values. */
  lemma {:induction false} SomesInOrder<T>(os: seq<Option<T>>)
    ensures Enumerates(Positions(os), Somes(os), os)
    decreases |os|
  {
    if os != [] {
      SomesInOrder(os[..|os| - 1]);
      EnumeratesExtend(Positions(os[..|os| - 1]), Somes(os[..|os| - 1]), os);
    }
  }

  /** What each entry contributes to `texts`, position by position. */
  function TextPicks(es: seq<Entry>): seq<Option<TextPart>>
  {
    seq(|es|, i requires 0 <= i < |es| => TextOf(es[i]))
  }

  /** What each entry contributes to `files`, position by position. */
  function FilePicks(es: seq<Entry>, rec: Recording): seq<Option<FilePart>>
  {
    seq(|es|, i requires 0 <= i < |es| => FileOf(es[i], rec))
  }

  /** The walk appends each entry's text part, if it has one, to `texts`. */
  lemma {:induction false} RunCollectsTexts(st: State, es: seq<Entry>, rec: Recording)
    ensures Run(st, es, rec).texts == st.texts + Somes(TextPicks(es))
    decreases |es|
  {
    if es == [] {
      assert st.texts + [] == st.texts;
    } else {
      var n := |es| - 1;
      var init := es[..n];
      RunCollectsTexts(st, init, rec);
      var tail := OptionToSeq(TextOf(es[n]));
      assert Run(st, es, rec).texts == Run(st, init, rec).texts + tail;
      assert TextPicks(es)[..n] == TextPicks(init);
      assert Somes(TextPicks(es)) == Somes(TextPicks(init)) + tail;
      assert (st.texts + Somes(TextPicks(init))) + tail == st.texts + (Somes(TextPicks(init)) + tail);
    }
  }

  lemma RunFilesStep(st: State, es: seq<Entry>, rec: Recording)
    requires es != []
    ensures Run(st, es, rec).files == Run(st, es[..|es| - 1], rec).files + OptionToSeq(FileOf(es[|es| - 1], rec))
  {
  }

  lemma FilePicksStep(es: seq<Entry>, rec: Recording)
    requires es != []
    ensures Somes(FilePicks(es, rec)) == Somes(FilePicks(es[..|es| - 1], rec)) + OptionToSeq(FileOf(es[|es| - 1], rec))
  {
    assert FilePicks(es, rec)[..|es| - 1] == FilePicks(es[..|es| - 1], rec);
  }

  /** The walk appends each entry's file part, if it has one, to `files`. */
  lemma {:induction false} RunCollectsFiles(st: State, es: seq<Entry>, rec: Recording)
    ensures Run(st, es, rec).files == st.files + Somes(FilePicks(es, rec))
    decreases |es|
  {
    if es == [] {
      assert st.files + [] == st.files;
    } else {
      var n := |es| - 1;
      var init := es[..n];
      RunCollectsFiles(st, init, rec);
      var tail := OptionToSeq(FileOf(es[n], rec));
      RunFilesStep(st, es, rec);
      FilePicksStep(es, rec);
      assert (st.files + Somes(FilePicks(init, rec))) + tail == st.files + (Somes(FilePicks(init, rec)) + tail);
    }
  }

  /**
   * `texts` and `files` list the parts in entry order: the k-th part comes from
   * the k-th entry that pushes one, and every entry that pushes one is counted.
   */
  lemma RunPartsInOrder(es: seq<Entry>, fs: map<string, seq<byte>>, rec: Recording)
    ensures exists idx :: Enumerates(idx, Run(Start(fs), es, rec).texts, TextPicks(es))
    ensures exists idx :: Enumerates(idx, Run(Start(fs), es, rec).files, FilePicks(es, rec))
  {
    RunCollectsTexts(Start(fs), es, rec);
    RunCollectsFiles(Start(fs), es, rec);
    assert [] + Somes(TextPicks(es)) == Somes(TextPicks(es));
    assert [] + Somes(FilePicks(es, rec)) == Somes(FilePicks(es, rec));
    SomesInOrder(TextPicks(es));
    SomesInOrder(FilePicks(es, rec));
  }

  /** A file entry touches only its own staged path. */
  predicate Targets(e: Entry, path: string)
  {
    e.filename.Some? && StagedPath(e.filename.value) == path
  }

  /** An entry that does not target `path` leaves it as it was. */
  lemma EntryDiskKeeps(fs: map<string, seq<byte>>, e: Entry, path: string)
    requires !Targets(e, path)
    ensures (path in EntryDisk(fs, e)) == (path in fs)
    ensures path in fs ==> EntryDisk(fs, e)[path] == fs[path]
  {
  }

  /** A file entry whose file was created leaves its bytes there, or nothing. */
  lemma EntryDiskSets(fs: map<string, seq<byte>>, e: Entry)
    requires e.filename.Some? && e.createError.None?
    ensures var path := StagedPath(e.filename.value);
      if Stream(e).Written? then path in EntryDisk(fs, e) && EntryDisk(fs, e)[path] == Stream(e).data
      else path !in EntryDisk(fs, e)
  {
  }

  /** The filesystem after a nonempty walk is the last entry's effect on the one before. */
  lemma RunDiskStep(st: State, es: seq<Entry>, rec: Recording)
    requires es != []
    ensures Run(st, es, rec).fs == EntryDisk(Run(st, es[..|es| - 1], rec).fs, es[|es| - 1])
  {
  }

  /** Paths that no file entry targets are left exactly as they were. */
  lemma {:induction false} RunLeavesOtherPaths(st: State, es: seq<Entry>, path: string, rec: Recording)
    requires forall i :: 0 <= i < |es| ==> !Targets(es[i], path)
    ensures (path in Run(st, es, rec).fs) == (path in st.fs)
    ensures path in st.fs ==> Run(st, es, rec).fs[path] == st.fs[path]
    decreases |es|
  {
    if es != [] {
      var init := es[..|es| - 1];
      assert forall i :: 0 <= i < |init| ==> init[i] == es[i];
      RunLeavesOtherPaths(st, init, path, rec);
      RunDiskStep(st, es, rec);
      EntryDiskKeeps(Run(st, init, rec).fs, es[|es| - 1], path);
    }
  }

  /**
   * The last entry that targets a path decides what is there afterwards: its
   * written bytes when it succeeded (so a later file part with the same filename
   * truncates an earlier one), no file when it failed after creating one.
   */
  lemma {:induction false} RunLastWriterWins(st: State, es: seq<Entry>, i: nat, rec: Recording)
    requires i < |es| && es[i].filename.Some? && es[i].createError.None?
    requires forall j :: i < j < |es| ==> !Targets(es[j], StagedPath(es[i].filename.value))
    ensures var path := StagedPath(es[i].filename.value);
      if Stream(es[i]).Written? then path in Run(st, es, rec).fs && Run(st, es, rec).fs[path] == Stream(es[i]).data
      else path !in Run(st, es, rec).fs
    decreases |es|
  {
    var n := |es| - 1;
    var init := es[..n];
    var path := StagedPath(es[i].filename.value);
    RunDiskStep(st, es, rec);
    if i < n {
      assert init[i] == es[i];
      forall j | i < j < |init| ensures !Targets(init[j], path) {
        assert init[j] == es[j];
      }
      RunLastWriterWins(st, init, i, rec);
      EntryDiskKeeps(Run(st, init, rec).fs, es[n], path);
    } else {
      EntryDiskSets(Run(st, init, rec).fs, es[i]);
    }
  }

  /**
   * When every part records the file actually written and no entry fails,
   * every file part pushed names an existing staged file.
   */
  lemma {:induction false} PushedFilesStaged(es: seq<Entry>, fs: map<string, seq<byte>>)
    requires Run(Start(fs), es, Joined).errOut.None?
    ensures forall k :: 0 <= k < |Run(Start(fs), es, Joined).files| ==>
              Run(Start(fs), es, Joined).files[k].path in Run(Start(fs), es, Joined).fs
    decreases |es|
  {
    if es != [] {
      var n := |es| - 1;
      var init := es[..n];
      RunSucceedsIffNoEntryFails(Start(fs), es, Joined);
      RunSucceedsIffNoEntryFails(Start(fs), init, Joined);
      assert forall i :: 0 <= i < |init| ==> init[i] == es[i];
      PushedFilesStaged(init, fs);
      var before := Run(Start(fs), init, Joined);
      var e := es[n];
      assert EntryFailure(e).None?;
      forall k | 0 <= k < |before.files| ensures before.files[k].path in EntryDisk(before.fs, e) {
        if e.filename.Some? && e.createError.None? {
          assert Stream(e).Written?;
        }
      }
    }
  }

  /** Every file entry names a relative filename. */
  predicate RelativeFilenames(es: seq<Entry>)
  {
    forall i :: 0 <= i < |es| && es[i].filename.Some? ==> !Paths.IsAbsolute(es[i].filename.value)
  }

  /** With relative filenames only, concatenating and joining record the same paths. */
  lemma {:induction false} RunRelativeAgrees(st: State, es: seq<Entry>)
    requires RelativeFilenames(es)
    ensures Run(st, es, Concatenated) == Run(st, es, Joined)
    decreases |es|
  {
    if es != [] {
      var n := |es| - 1;
      var init := es[..n];
      assert forall i :: 0 <= i < |init| ==> init[i] == es[i];
      RunRelativeAgrees(st, init);
      if es[n].filename.Some? {
        RecordedPathIsStagedPath(es[n].filename.value);
      }
    }
  }

  /** As the source is written, pushed files name staged files when every filename is relative. */
  lemma RelativeFilesStaged(es: seq<Entry>, fs: map<string, seq<byte>>)
    requires RelativeFilenames(es)
    requires Run(Start(fs), es, Concatenated).errOut.None?
    ensures forall k :: 0 <= k < |Run(Start(fs), es, Concatenated).files| ==>
              Run(Start(fs), es, Concatenated).files[k].path in Run(Start(fs), es, Concatenated).fs
  {
    RunRelativeAgrees(Start(fs), es);
    PushedFilesStaged(es, fs);
  }

  /** The one-entry upload of `/x.wasm` with the bytes `d`, written without error. */
  function AbsoluteUpload(name: string, d: seq<byte>): Entry
  {
    Entry(name, Some("/x.wasm"), [Chunk(d)], None, [])
  }

  /**
   * As the source is written, an absolute filename is accepted and reported
   * at a path that was not written: the bytes are at the filename itself.
   * Recording the joined path names the written file instead.
   */
  lemma AbsoluteFilenamePartMissing(name: string, d: seq<byte>, fs: map<string, seq<byte>>)
    requires d != [] && RecordedPath("/x.wasm") !in fs
    ensures var st := Run(Start(fs), [AbsoluteUpload(name, d)], Concatenated);
      && Conclude(st) == Success(MultipartDatas([], [FilePart(name, RecordedPath("/x.wasm"), "/x.wasm")]))
      && RecordedPath("/x.wasm") !in st.fs
      && "/x.wasm" in st.fs && st.fs["/x.wasm"] == d
    ensures Run(Start(fs), [AbsoluteUpload(name, d)], Joined).files == [FilePart(name, "/x.wasm", "/x.wasm")]
  {
    var e := AbsoluteUpload(name, d);
    FileStreamsEveryByte(e, [d], []);
    assert Chunks([d]) + [] == e.chunks by {
      assert Chunks([d]) == [Chunk(d)] + Chunks([]);
    }
    assert Flatten([d]) == d;
    AbsoluteFilenameEscapes("/x.wasm");
    RunAppend(Start(fs), [], e, Concatenated);
    RunAppend(Start(fs), [], e, Joined);
    assert [] + [e] == [e];
  }

  /** The guard's verdict on a finished walk. */
  function Conclude(st: State): Outcome
  {
    if st.errOut.Some? then Failed(st.errOut.value) else Success(MultipartDatas(st.texts, st.files))
  }

  // ---------------------------------------------------------------------------
  // The imperative guard

  /** The text branch's read loop. */
  method ReadText(chunks: seq<Read>) returns (r: Result<seq<byte>, string>)
    ensures r == CollectText(chunks)
  {
    var textBuffer: seq<byte> := [];
    var i := 0;
    PrependBytesAssoc([], [], CollectText(chunks));
    while true
      invariant 0 <= i <= |chunks|
      invariant CollectText(chunks) == PrependBytes(textBuffer, CollectFrom(chunks, i))
      decreases |chunks| - i
    {
      var c := ReadAt(chunks, i);
      if c.ReadError? {
        return Err(c.msg);
      }
      if c.data == [] {
        break;
      }
      assert CollectFrom(chunks, i) == PrependBytes(c.data, CollectFrom(chunks, i + 1));
      PrependBytesAssoc(textBuffer, c.data, CollectFrom(chunks, i + 1));
      textBuffer := textBuffer + c.data;
      i := i + 1;
    }
    assert CollectFrom(chunks, i) == Ok([]);
    assert textBuffer + [] == textBuffer;
    return Ok(textBuffer);
  }

  /** One run of the `foreach_entry` closure; its `return`s end this entry only. */
  method ProcessEntry(disk: Fs.Disk, e: Entry, texts: seq<TextPart>, files: seq<FilePart>, errOut: Option<Failure>)
    returns (texts': seq<TextPart>, files': seq<FilePart>, errOut': Option<Failure>)
    modifies disk
    ensures State(texts', files', errOut', disk.files) == Step(State(texts, files, errOut, old(disk.files)), e, Concatenated)
  {
    texts', files', errOut' := texts, files, errOut;
    if e.filename.None? {
      var read := ReadText(e.chunks);
      if read.Err? {
        errOut' := Some(Failure(UnprocessableEntity, read.error));
        return;
      }
      var text := Utf8.Decode(read.value);
      if text.None? {
        errOut' := Some(Failure(UnprocessableEntity, NotUtf8Message));
        return;
      }
      texts' := texts + [TextPart(e.name, text.value)];
      assert files + [] == files;
    } else {
      var filename := e.filename.value;
      var targetPath := StagedPath(filename);
      var created := disk.Create(targetPath, e.createError);
      if created.Some? {
        errOut' := Some(Failure(InternalServerError, created.value));
        return;
      }
      var sumC: nat := 0;
      var i := 0;
      while true
        invariant 0 <= i <= |e.chunks|
        invariant targetPath in disk.files
        invariant disk.files == old(disk.files)[targetPath := disk.files[targetPath]]
        invariant Stream(e) == PrependWritten(disk.files[targetPath], StreamFrom(e, i))
        invariant sumC == |disk.files[targetPath]|
        decreases |e.chunks| - i
      {
        var c := ReadAt(e.chunks, i);
        if c.ReadError? {
          TryDelete(disk, targetPath);
          errOut' := Some(Failure(UnprocessableEntity, c.msg));
          return;
        }
        if c.data == [] {
          break;
        }
        sumC := sumC + |c.data|;
        var written := disk.Write(targetPath, c.data, WriteErrorAt(e, i));
        if written.Some? {
          TryDelete(disk, targetPath);
          errOut' := Some(Failure(InternalServerError, written.value));
          return;
        }
        i := i + 1;
      }
      assert StreamFrom(e, i) == Written([]);
      assert disk.files[targetPath] + [] == disk.files[targetPath];
      files' := files + [FilePart(e.name, RecordedPath(filename), filename)];
      assert texts + [] == texts;
    }
  }

  /**
   * `MultipartDatas::from_data`. On failure the parts already pushed are
   * dropped, which removes the files at their recorded paths.
   */
  method FromData(disk: Fs.Disk, contentType: string, body: seq<byte>,
                  frame: (seq<byte>, string) -> seq<Entry>)
    returns (outcome: Outcome)
    requires HasBoundary(contentType)
    modifies disk
    ensures var st := Run(Start(old(disk.files)), frame(body, Boundary(contentType)), Concatenated);
      && outcome == Conclude(st)
      && disk.files == if st.errOut.Some? then st.fs - PathsOf(st.files) else st.fs
  {
    var boundary := Boundary(contentType);
    var entries := frame(body, boundary);
    ghost var fs0 := disk.files;
    var texts: seq<TextPart> := [];
    var files: seq<FilePart> := [];
    var errOut: Option<Failure> := None;
    for n := 0 to |entries|
      invariant State(texts, files, errOut, disk.files) == Run(Start(fs0), entries[..n], Concatenated)
    {
      texts, files, errOut := ProcessEntry(disk, entries[n], texts, files, errOut);
      RunAppend(Start(fs0), entries[..n], entries[n], Concatenated);
      assert entries[..n + 1] == entries[..n] + [entries[n]];
    }
    assert entries[..|entries|] == entries;
    if errOut.Some? {
      DropParts(disk, files);
      outcome := Failed(errOut.value);
    } else {
      outcome := Success(MultipartDatas(texts, files));
    }
  }

  // ---------------------------------------------------------------------------
  // Owning the staged file

  /**
   * `FilePart::persist`: copies the recorded file to `dir` joined with the
   * original filename. A missing recorded file makes the source panic.
   * Persisting onto the recorded path itself empties the file.
   */
  method Persist(disk: Fs.Disk, part: FilePart, dir: string)
    requires part.path in disk.files
    modifies disk
    ensures var target := Paths.Join(dir, part.filename);
      && disk.files == old(disk.files)[target := if target == part.path then [] else old(disk.files)[part.path]]
      && (target != part.path ==> disk.files[part.path] == old(disk.files)[part.path])
      && (target == part.path ==> disk.files[part.path] == [])
  {
    disk.Copy(part.path, Paths.Join(dir, part.filename));
  }

  /**
   * `Drop for FilePart`: removes the staged file. The source unwraps the
   * result, so dropping a part whose file is already gone panics; the panic
   * is not modelled and the removal is then a no-op.
   */
  method DropFilePart(disk: Fs.Disk, part: FilePart)
    modifies disk
    ensures disk.files == old(disk.files) - {part.path}
  {
    var _ := disk.RemoveFile(part.path);
  }

  /** Dropping the `files` vector: each part is dropped in turn. */
  method DropParts(disk: Fs.Disk, files: seq<FilePart>)
    modifies disk
    ensures disk.files == old(disk.files) - PathsOf(files)
  {
    for k := 0 to |files|
      invariant disk.files == old(disk.files) - PathsOf(files[..k])
    {
      DropFilePart(disk, files[k]);
      assert PathsOf(files[..k + 1]) == PathsOf(files[..k]) + {files[k].path};
    }
    assert files[..|files|] == files;
  }

  /** `try_delete`: removes a file if there is one and never fails. */
  method TryDelete(disk: Fs.Disk, path: string)
    modifies disk
    ensures disk.files == old(disk.files) - {path}
  {
    var _ := disk.RemoveFile(path);
  }
}
