/** The atom container as the MP4 library presents it: a dictionary from atom
    identifier to the parsed value of that atom. */
module Atoms {
  import Results
  import opened ByteStrings
  import opened Mp4Tables

  /** The parsed value of one atom. A track or disc atom holds a single
      (number, total) pair; `Other` stands for any value of an atom this
      translation never reads. */
  datatype AtomValue =
    | Texts(texts: seq<string>)
    | Flag(flag: bool)
    | Blobs(blobs: seq<Bytes>)
    | Pair(current: int, total: int)
    | Covers(images: seq<Bytes>)
    | Other

  type Tags = map<string, AtomValue>

  /** The value shape the library produces for each kind of atom. */
  predicate WellTyped(tt: TagTables, id: string, v: AtomValue)
    requires tt.Valid()
  {
    match Classify(tt, id)
    case TextAtom(_) => v.Texts?
    case BoolAtom(_) => v.Flag?
    case FreeformAtom(_) => v.Blobs?
    case TrackPair => v.Pair?
    case DiscPair => v.Pair?
    case Artwork => v.Covers?
    case Unknown => true
  }

  predicate WellTypedTags(tt: TagTables, t: Tags)
    requires tt.Valid()
  {
    forall id :: id in t ==> WellTyped(tt, id, t[id])
  }

  /** The canonical text keys an atom can contribute values to on import. */
  function KeysOf(tt: TagTables, id: string): set<string>
    requires tt.Valid()
  {
    match Classify(tt, id)
    case TextAtom(k) => {k}
    case BoolAtom(k) => {k}
    case FreeformAtom(k) => {k}
    case TrackPair => {TrackNumberKey, TotalTracksKey}
    case DiscPair => {DiscNumberKey, TotalDiscsKey}
    case Artwork => {}
    case Unknown => {}
  }

  /** The one atom a canonical key is imported from, found through the reverse
      tables and the two number pairs. */
  function SourceAtom(tt: TagTables, key: string): (r: Results.Option<string>)
    requires tt.Valid()
    ensures r.Some? <==> SupportsTag(tt, key) || key in PairKeys
    ensures r.Some? ==> key in KeysOf(tt, r.value)
    ensures SupportsTag(tt, key) ==> r.value in TableAtoms(tt) && AtomKey(tt, r.value) == key
    ensures key == TrackNumberKey || key == TotalTracksKey ==> r == Results.Some(TrackAtom)
    ensures key == DiscNumberKey || key == TotalDiscsKey ==> r == Results.Some(DiscAtom)
  {
    ReverseTablesInvert(tt);
    if key in tt.ReverseText() then
      ClassifyAgreesWithReverse(tt, tt.ReverseText()[key], key);
      Results.Some(tt.ReverseText()[key])
    else if key in tt.ReverseFlags() then
      ClassifyAgreesWithReverse(tt, tt.ReverseFlags()[key], key);
      Results.Some(tt.ReverseFlags()[key])
    else if key in tt.ReverseFreeform() then
      ClassifyAgreesWithReverse(tt, tt.ReverseFreeform()[key], key);
      Results.Some(tt.ReverseFreeform()[key])
    else if key == TrackNumberKey || key == TotalTracksKey then
      Results.Some(TrackAtom)
    else if key == DiscNumberKey || key == TotalDiscsKey then
      Results.Some(DiscAtom)
    else
      Results.None
  }

  /** No two atoms feed the same key: every key an atom contributes to has that
      atom, and only it, as its source. */
  lemma SourceAtomIsUnique(tt: TagTables, id: string, key: string)
    requires tt.Valid()
    requires key in KeysOf(tt, id)
    ensures SourceAtom(tt, key) == Results.Some(id)
  {
    ReverseKeysDisjoint(tt, key);
    match Classify(tt, id)
    case TextAtom(k) =>
      ClassifyAgreesWithReverse(tt, id, k);
    case BoolAtom(k) =>
      ClassifyAgreesWithReverse(tt, id, k);
    case FreeformAtom(k) =>
      ClassifyAgreesWithReverse(tt, id, k);
    case TrackPair =>
    case DiscPair =>
  }

  /** Writing one atom and then a batch that does not contain it is writing
      the batch with that atom added. */
  lemma OverlayUpdate(tags: Tags, batch: Tags, id: string, v: AtomValue)
    requires id !in batch
    ensures tags[id := v] + batch == tags + batch[id := v]
  {
  }
}
