/** The tables of one collection database, and what one scanned file brings to them.
    SHA-256 identifiers are constructors, which makes the hash injective; checksums stand
    for file contents. */
module LedgerModel {
  import opened Options

  type Checksum = int

  datatype LogicalId = PathDigest(dataset: string, relpath: string) | GivenLogical(text: string)

  datatype DocId =
    | Digest(dataset: string, logical: LogicalId, version: int, checksum: Checksum)
    | GivenDoc(text: string)

  datatype Status =
    | Parsing | Indexed | NeedsOcr | ReviewRequired | Failed
    | LegacyRemoved | LegacySuperseded | OtherStatus(text: string)

  datatype Lifecycle =
    | Pending | Active | Superseded | Removed | FailedAttempt | OtherLifecycle(text: string)

  /** A timestamp column: NULL, the empty string, or an instant. Only an instant is truthy. */
  datatype Stamp = Null | Blank | At(time: int)

  /** A file name below the raw directory, with or without the checksum suffix, or a path elsewhere. */
  datatype RawName =
    | Plain(name: string) | Suffixed(name: string, checksum: Checksum) | Elsewhere(path: string)

  datatype Classification = Classification(conflict: bool, classifier: string, docType: string)

  const CLASSIFIER_VERSION := "hybrid_rules_llm_v2"

  /** A row of `documents`. `relpath == ""` and `sourceRoot == None` stand for NULL. */
  datatype Row = Row(
    docId: DocId, dataset: string, logical: Option<LogicalId>, version: int, supersedes: Option<DocId>,
    current: bool, lifecycle: Lifecycle, filename: string, sourceRoot: Option<string>, relpath: string,
    stored: RawName, isPdf: bool, localDirectory: bool, classification: Classification,
    checksum: Checksum, status: Status, chunkCount: int, created: int, updated: Stamp, deleted: Stamp)

  datatype Chunk = Chunk(content: string, sourceRef: string)

  datatype ChunkId = ChunkDigest(docId: DocId, index: nat, content: string, sourceRef: string)

  datatype ChunkRow = ChunkRow(
    id: ChunkId, dataset: string, docId: DocId, index: nat, chunk: Chunk,
    prev: Option<ChunkId>, next: Option<ChunkId>)

  datatype PageRow = PageRow(docId: DocId, number: nat)

  datatype Registry = Registry(docs: seq<DocId>, chunkCount: nat, ready: bool)

  datatype Store = Store(
    rows: seq<Row>, chunks: seq<ChunkRow>, pages: seq<PageRow>,
    raw: map<RawName, Checksum>, registry: Option<Registry>)

  const EmptyStore := Store([], [], [], map[], None)

  /** What copying the source into the raw directory does when bytes have to be written. */
  datatype Copy = CopyOk | CopyFails(leftover: Option<Checksum>)

  /** How the parser ends; one that raises may have written pages, chunks and the count first. */
  datatype ParseOutcome =
    | Parsed(pages: nat, chunks: seq<Chunk>)
    | Scanned(pages: nat)
    | ParserRaised(pages: nat, chunks: seq<Chunk>, counted: bool)

  /** Where, apart from the parser, the attempt raises. */
  datatype Fault = NoFault | HashFault | RegisterFault | FinishFault

  /** One supported file of a scan with everything the environment decides about it.
      `checksum == None` means that the file cannot be read. */
  datatype SourceFile = SourceFile(
    relpath: string, name: string, isPdf: bool, checksum: Option<Checksum>, copy: Copy,
    classification: Classification, refreshed: Classification,
    outcome: ParseOutcome, fault: Fault, recordFault: bool)
}
