/** A file system as the installer sees it: absolute paths and whole-file contents. */
module Files {
  import opened Values

  type Path = string

  /** One entry of a host configuration document, or a complete file. */
  datatype Unit =
    | WholeFile
    | ArrayEntry(pointer: seq<string>, identity: string)
    | ObjectEntry(pointer: seq<string>, key: string)

  /** A unit together with the file that contains it. */
  datatype UnitKey = UnitKey(path: Path, part: Unit)

  datatype Content =
    | Blob(bytes: string)
    | Document(root: Json)
    | Ledger(receipt: Receipt)

  /** SHA-256, taken to be injective: a digest determines the content. */
  datatype Digest = Sha256(preimage: Content)

  /** Ownership evidence for one unit; `previous` is the state it displaced, if any. */
  datatype ReceiptEntry = ReceiptEntry(source: string, checksum: Digest, previous: Option<Content>)

  datatype Receipt = Receipt(manifest: string, entries: map<UnitKey, ReceiptEntry>)

  type Files = map<Path, Content>

  function Lookup(files: Files, path: Path): Option<Content> {
    if path in files then Some(files[path]) else None
  }

  function Put(files: Files, path: Path, content: Option<Content>): Files {
    match content
    case Some(value) => files[path := value]
    case None => files - {path}
  }

  lemma SameLookups(left: Files, right: Files)
    requires forall p :: Lookup(left, p) == Lookup(right, p)
    ensures left == right
  {
    forall p ensures p in left <==> p in right {
      assert Lookup(left, p) == Lookup(right, p);
    }
    forall p | p in left ensures left[p] == right[p] {
      assert Lookup(left, p) == Lookup(right, p);
    }
  }
}
