/** The ingestion pipeline (app/ingestion/ingestion_pipeline.py): every PDF listed in a
    Drive folder is downloaded, split into pages and chunked; a file whose processing
    fails is recorded in the report with its error and the loop carries on.

    Building the Drive client and listing the folder is the parameter `list`, which
    returns the listing or the exception raised; downloading and page extraction of one
    file is the function `fetch`; chunk ids, the clock reading of each chunk
    (`nows(k)(i)` for chunk `i` of file `k`) and the report's timestamp are parameters. */
module Ingestion {
  import opened Common
  import opened Text
  import opened Chunker

  datatype DriveFile = DriveFile(fileId: string, filename: string, driveUrl: string)

  /** Downloading and extracting one file: its pages, or the message of the exception
      raised on the way. */
  datatype Fetched = Pages(pages: seq<PageText>) | FetchError(message: string)

  /** One entry of the report's `files` list. */
  datatype FileSummary =
    | Processed(fileId: string, filename: string, driveUrl: string, pages: nat, chunks: nat)
    | Failed(fileId: string, filename: string, driveUrl: string, error: string)

  datatype Report = Report(ingestedAt: string, folderId: string, filesSeen: nat,
                           chunksTotal: nat, files: seq<FileSummary>)

  /** What `run_ingestion` returns: the report and the chunks of all files. */
  datatype Ingested = Ingested(report: Report, chunks: seq<Chunk>)

  /** `folder_id or settings.gdrive_folder_id`; None when both are unset or empty, in
      which case the Drive client raises ValueError. */
  function EffectiveFolder(folderId: Option<string>, configured: Option<string>): (r: Option<string>)
    ensures r.Some? ==> r.value != ""
    ensures folderId.Some? && folderId.value != "" ==> r == folderId
    ensures (folderId == None || folderId == Some("")) ==>
              r == (if configured == Some("") then None else configured)
  {
    if folderId.Some? && folderId.value != "" then folderId
    else if configured.Some? && configured.value != "" then configured
    else None
  }

  /** `if limit_files: files = files[:limit_files]`: None and 0 keep the whole listing;
      any other value is a Python slice bound, negative values counting from the end. */
  function LimitFiles(files: seq<DriveFile>, limit: Option<int>): (r: seq<DriveFile>)
    ensures limit == None || limit == Some(0) ==> r == files
    ensures limit.Some? && limit.value > 0 ==> r == files[..Min(limit.value, |files|)]
    ensures limit.Some? && limit.value < 0 ==> r == files[..Max(0, |files| + limit.value)]
  {
    if limit.Some? && limit.value != 0 then PyPrefix(files, limit.value) else files
  }

  function ProvenanceOf(f: DriveFile): Provenance {
    Provenance(f.fileId, f.filename, f.driveUrl)
  }

  /** The report entry and the chunks of one file, `ids` naming its chunks. The sizes are
      the defaults, which always pass the chunker's assertion. */
  function FileResult(f: DriveFile, fetch: DriveFile -> Fetched, ids: nat -> string, nows: nat -> string)
    : (FileSummary, seq<Chunk>)
  {
    match fetch(f)
    case FetchError(m) => (Failed(f.fileId, f.filename, f.driveUrl, m), [])
    case Pages(ps) =>
      var cs := ChunksOf(TokenStream(ps), DefaultChunkSize, DefaultOverlap, ProvenanceOf(f), ids, nows);
      (Processed(f.fileId, f.filename, f.driveUrl, |ps|, |cs|), cs)
  }

  /** The report entries of `files`, the `i`-th file naming its chunks with `ids(i)`. */
  function Summaries(files: seq<DriveFile>, fetch: DriveFile -> Fetched,
                     ids: nat -> nat -> string, nows: nat -> nat -> string): seq<FileSummary> {
    seq(|files|, i requires 0 <= i < |files| => FileResult(files[i], fetch, ids(i), nows(i)).0)
  }

  /** The chunks of `files`, file after file. */
  function AllChunks(files: seq<DriveFile>, fetch: DriveFile -> Fetched,
                     ids: nat -> nat -> string, nows: nat -> nat -> string): seq<Chunk> {
    if files == [] then []
    else
      var k := |files| - 1;
      AllChunks(files[..k], fetch, ids, nows) + FileResult(files[k], fetch, ids(k), nows(k)).1
  }

  /** The result of `run_ingestion`. */
  function IngestionOf(folder: string, listed: seq<DriveFile>, limit: Option<int>,
                       fetch: DriveFile -> Fetched, ids: nat -> nat -> string,
                       nows: nat -> nat -> string, reportTime: string): Ingested {
    var files := LimitFiles(listed, limit);
    var chunks := AllChunks(files, fetch, ids, nows);
    Ingested(Report(reportTime, folder, |files|, |chunks|, Summaries(files, fetch, ids, nows)), chunks)
  }

  /** `run_ingestion`: without a folder id the Drive client raises ValueError; an
      exception from loading the credentials, building the service or listing the folder
      (`list`, outside the per-file `try`) escapes unchanged; otherwise each listed file
      (up to the limit) is processed in turn. */
  method RunIngestion(folderId: Option<string>, configured: Option<string>,
                      list: string -> Outcome<seq<DriveFile>>, limit: Option<int>,
                      fetch: DriveFile -> Fetched, ids: nat -> nat -> string,
                      nows: nat -> nat -> string, reportTime: string)
    returns (r: Outcome<Ingested>)
    ensures EffectiveFolder(folderId, configured) == None ==> r == Raised("ValueError")
    ensures var folder := EffectiveFolder(folderId, configured);
            folder.Some? && list(folder.value).Raised? ==> r == Raised(list(folder.value).exception)
    ensures var folder := EffectiveFolder(folderId, configured);
            folder.Some? && list(folder.value).Ok? ==>
              r == Ok(IngestionOf(folder.value, list(folder.value).value, limit,
                                  fetch, ids, nows, reportTime))
  {
    var folder := EffectiveFolder(folderId, configured);
    if folder == None {
      return Raised("ValueError");
    }
    var listed := list(folder.value);
    if listed.Raised? {
      return Raised(listed.exception);
    }
    var files := listed.value;
    if limit.Some? && limit.value != 0 {
      files := PyPrefix(files, limit.value);
    }
    var outChunks: seq<Chunk> := [];
    var summaries: seq<FileSummary> := [];
    for k := 0 to |files|
      invariant summaries == Summaries(files[..k], fetch, ids, nows)
      invariant outChunks == AllChunks(files[..k], fetch, ids, nows)
    {
      var f := files[k];
      IngestionStep(files, fetch, ids, nows, k);
      match fetch(f)
      case FetchError(m) =>
        summaries := summaries + [Failed(f.fileId, f.filename, f.driveUrl, m)];
      case Pages(ps) =>
        var chunked := ChunkPages(ps, None, None, ProvenanceOf(f), ids(k), nows(k));
        match chunked
        case Ok(cs) =>
          outChunks := outChunks + cs;
          summaries := summaries + [Processed(f.fileId, f.filename, f.driveUrl, |ps|, |cs|)];
    }
    assert files[..|files|] == files;
    var report := Report(reportTime, folder.value, |files|, |outChunks|, summaries);
    return Ok(Ingested(report, outChunks));
  }

  /** One more file extends the entries and the chunks by that file's own. */
  lemma IngestionStep(files: seq<DriveFile>, fetch: DriveFile -> Fetched,
                      ids: nat -> nat -> string, nows: nat -> nat -> string, k: nat)
    requires k < |files|
    ensures Summaries(files[..k + 1], fetch, ids, nows) ==
            Summaries(files[..k], fetch, ids, nows) + [FileResult(files[k], fetch, ids(k), nows(k)).0]
    ensures AllChunks(files[..k + 1], fetch, ids, nows) ==
            AllChunks(files[..k], fetch, ids, nows) + FileResult(files[k], fetch, ids(k), nows(k)).1
  {
    assert files[..k + 1][..k] == files[..k];
  }

  // ---------------------------------------------------------------- properties

  /** The chunks a report entry accounts for: its `chunks` count, or none for a failure. */
  function ChunkCount(s: FileSummary): nat {
    if s.Processed? then s.chunks else 0
  }

  function TotalChunks(ss: seq<FileSummary>): nat {
    if ss == [] then 0 else TotalChunks(ss[..|ss| - 1]) + ChunkCount(ss[|ss| - 1])
  }

  /** The entry of one file names it, is a failure exactly when the fetch failed, and
      counts the chunks returned for the file. */
  lemma FileResultAccounts(f: DriveFile, fetch: DriveFile -> Fetched, ids: nat -> string, nows: nat -> string)
    ensures var (s, cs) := FileResult(f, fetch, ids, nows);
            && s.fileId == f.fileId && s.filename == f.filename && s.driveUrl == f.driveUrl
            && (s.Failed? <==> fetch(f).FetchError?)
            && (s.Failed? ==> s.error == fetch(f).message && cs == [])
            && (s.Processed? ==> s.pages == |fetch(f).pages| && s.chunks == |cs|)
            && ChunkCount(s) == |cs|
  {
  }

  /** The report has one entry per processed file, in order, each naming its file; a file
      that failed has an error entry and contributes no chunks; `chunks_total` is the sum
      of the successful entries' `chunks` counts and the length of the chunk list. */
  lemma {:induction false} ReportAccounts(files: seq<DriveFile>, fetch: DriveFile -> Fetched,
                                          ids: nat -> nat -> string, nows: nat -> nat -> string)
    ensures var ss := Summaries(files, fetch, ids, nows);
            && |ss| == |files|
            && (forall i :: 0 <= i < |ss| ==>
                  ss[i].fileId == files[i].fileId && ss[i].filename == files[i].filename &&
                  ss[i].driveUrl == files[i].driveUrl &&
                  (ss[i].Failed? <==> fetch(files[i]).FetchError?))
            && TotalChunks(ss) == |AllChunks(files, fetch, ids, nows)|
  {
    if files != [] {
      var k := |files| - 1;
      ReportAccounts(files[..k], fetch, ids, nows);
      var ss := Summaries(files, fetch, ids, nows);
      var prev := Summaries(files[..k], fetch, ids, nows);
      assert ss[..k] == prev;
      assert TotalChunks(ss) == TotalChunks(prev) + ChunkCount(ss[k]);
      FileResultAccounts(files[k], fetch, ids(k), nows(k));
      assert AllChunks(files, fetch, ids, nows) ==
             AllChunks(files[..k], fetch, ids, nows) + FileResult(files[k], fetch, ids(k), nows(k)).1;
    }
  }

  /** Every returned chunk belongs to a file whose entry is a success, and carries that
      file's id, name and link. */
  lemma {:induction false} ChunksFromProcessedFiles(files: seq<DriveFile>, fetch: DriveFile -> Fetched,
                                                    ids: nat -> nat -> string, nows: nat -> nat -> string)
    ensures forall c :: c in AllChunks(files, fetch, ids, nows) ==>
              exists i :: 0 <= i < |files| && fetch(files[i]).Pages? &&
                          Summaries(files, fetch, ids, nows)[i].Processed? &&
                          c.fileId == files[i].fileId && c.filename == files[i].filename &&
                          c.driveUrl == files[i].driveUrl
  {
    if files != [] {
      var k := |files| - 1;
      var init := files[..k];
      ChunksFromProcessedFiles(init, fetch, ids, nows);
      var ss := Summaries(files, fetch, ids, nows);
      forall c | c in AllChunks(files, fetch, ids, nows)
        ensures exists i :: 0 <= i < |files| && fetch(files[i]).Pages? &&
                            ss[i].Processed? &&
                            c.fileId == files[i].fileId && c.filename == files[i].filename &&
                            c.driveUrl == files[i].driveUrl
      {
        if c in AllChunks(init, fetch, ids, nows) {
          var i :| 0 <= i < |init| && fetch(init[i]).Pages? &&
                   Summaries(init, fetch, ids, nows)[i].Processed? &&
                   c.fileId == init[i].fileId && c.filename == init[i].filename &&
                   c.driveUrl == init[i].driveUrl;
          assert files[i] == init[i];
        } else {
          assert c in FileResult(files[k], fetch, ids(k), nows(k)).1;
          FileChunkProvenance(files[k], fetch, ids(k), nows(k), c);
          assert ss[k] == FileResult(files[k], fetch, ids(k), nows(k)).0;
        }
      }
    }
  }

  /** A chunk of one file comes from a successful fetch and carries the file's id, name
      and link. */
  lemma FileChunkProvenance(f: DriveFile, fetch: DriveFile -> Fetched, ids: nat -> string,
                            nows: nat -> string, c: Chunk)
    requires c in FileResult(f, fetch, ids, nows).1
    ensures fetch(f).Pages? && FileResult(f, fetch, ids, nows).0.Processed?
    ensures c.fileId == f.fileId && c.filename == f.filename && c.driveUrl == f.driveUrl
  {
    var ps := fetch(f).pages;
    var cs := ChunksOf(TokenStream(ps), DefaultChunkSize, DefaultOverlap, ProvenanceOf(f), ids, nows);
    var j :| 0 <= j < |cs| && cs[j] == c;
    ChunkProperties(ps, DefaultChunkSize, DefaultOverlap, ProvenanceOf(f), ids, nows, j);
  }

  /** `files_seen` counts the report's entries, which are the listed files up to the
      limit, and `chunks_total` is both the length of the returned chunk list and the sum
      of the successful entries' `chunks` counts. */
  lemma ReportTotals(folder: string, listed: seq<DriveFile>, limit: Option<int>,
                     fetch: DriveFile -> Fetched, ids: nat -> nat -> string,
                     nows: nat -> nat -> string, reportTime: string)
    ensures var out := IngestionOf(folder, listed, limit, fetch, ids, nows, reportTime);
            && out.report.filesSeen == |out.report.files| == |LimitFiles(listed, limit)|
            && out.report.chunksTotal == |out.chunks| == TotalChunks(out.report.files)
            && out.report.folderId == folder && out.report.ingestedAt == reportTime
  {
    ReportAccounts(LimitFiles(listed, limit), fetch, ids, nows);
  }
}
