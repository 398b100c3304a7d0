/** The import direction: the loop of `_load` that turns the atoms of a file
    into a fresh metadata record. */
module Mp4Load {
  import opened Results
  import opened ByteStrings
  import opened Utf8
  import opened Decimal
  import opened Listings
  import opened Mp4Tables
  import opened Records
  import opened Atoms

  /** How a flag reads in the record: "1" when set, "0" when not. */
  function FlagText(b: bool): (s: string)
    ensures s == "1" <==> b
    ensures s == "0" <==> !b
  {
    if b then "1" else "0"
  }

  /** One free-form value: NUL bytes stripped from both ends, then decoded. */
  function DecodeBlob(b: Bytes, decode: Decoder): string {
    decode(StripNul(b))
  }

  /** Every free-form value of an atom, decoded, in order. */
  function DecodeBlobs(bs: seq<Bytes>, decode: Decoder): (r: seq<string>)
    ensures |r| == |bs|
    ensures forall i :: 0 <= i < |bs| ==> r[i] == decode(StripNul(bs[i]))
  {
    seq(|bs|, i requires 0 <= i < |bs| => DecodeBlob(bs[i], decode))
  }

  /** The values atom `id` holding `v` gives to canonical key `key`. */
  function Contribution(tt: TagTables, id: string, v: AtomValue, key: string, decode: Decoder): seq<string>
    requires tt.Valid()
    requires WellTyped(tt, id, v)
  {
    match Classify(tt, id)
    case TextAtom(k) => if key == k then v.texts else []
    case BoolAtom(k) => if key == k then [FlagText(v.flag)] else []
    case FreeformAtom(k) => if key == k then DecodeBlobs(v.blobs, decode) else []
    case TrackPair =>
      if key == TrackNumberKey then [IntToString(v.current)]
      else if key == TotalTracksKey then [IntToString(v.total)]
      else []
    case DiscPair =>
      if key == DiscNumberKey then [IntToString(v.current)]
      else if key == TotalDiscsKey then [IntToString(v.total)]
      else []
    case Artwork => []
    case Unknown => []
  }

  /** An atom contributes nothing to a key it does not feed. */
  lemma ContributionElsewhere(tt: TagTables, id: string, v: AtomValue, key: string, decode: Decoder)
    requires tt.Valid() && WellTyped(tt, id, v) && key !in KeysOf(tt, id)
    ensures Contribution(tt, id, v, key, decode) == []
  {
  }

  /** One turn of the import loop, dispatching on the kind of the atom. Only
      the keys the atom feeds can change or appear, and no value list is left
      empty. */
  function ImportAtom(tt: TagTables, m: Metadata, id: string, v: AtomValue, decode: Decoder): (r: Metadata)
    requires tt.Valid()
    requires WellTyped(tt, id, v)
    ensures forall k :: k in m.tags && k !in KeysOf(tt, id) ==> k in r.tags && r.tags[k] == m.tags[k]
    ensures forall k :: k in r.tags ==> k in m.tags || k in KeysOf(tt, id)
    ensures Normal(m) ==> Normal(r)
  {
    match Classify(tt, id)
    case TextAtom(key) => AddAll(m, key, v.texts)
    case BoolAtom(key) => Add(m, key, FlagText(v.flag))
    case FreeformAtom(key) => AddAll(m, key, DecodeBlobs(v.blobs, decode))
    case TrackPair =>
      Set(Set(m, TrackNumberKey, IntToString(v.current)), TotalTracksKey, IntToString(v.total))
    case DiscPair =>
      Set(Set(m, DiscNumberKey, IntToString(v.current)), TotalDiscsKey, IntToString(v.total))
    case Artwork => AddAllArtwork(m, v.images)
    case Unknown => m
  }

  /** Whether an atom overwrites its keys instead of appending to them. */
  predicate Overwrites(tt: TagTables, id: string)
    requires tt.Valid()
  {
    Classify(tt, id).TrackPair? || Classify(tt, id).DiscPair?
  }

  /** What one turn of the import loop does to one key. Table atoms append
      their values, in order, under their key; the track and disc pairs replace
      whatever their two keys held; any other key keeps its values. */
  lemma ImportAtomValues(tt: TagTables, m: Metadata, id: string, v: AtomValue, key: string, decode: Decoder)
    requires tt.Valid()
    requires WellTyped(tt, id, v)
    ensures Values(ImportAtom(tt, m, id, v, decode), key) ==
      (if Overwrites(tt, id) && key in KeysOf(tt, id) then [] else Values(m, key)) + Contribution(tt, id, v, key, decode)
  {
    match Classify(tt, id)
    case TextAtom(k) =>
    case BoolAtom(k) =>
    case FreeformAtom(k) =>
    case TrackPair =>
      assert Values(m, key) + [] == Values(m, key);
    case DiscPair =>
      assert Values(m, key) + [] == Values(m, key);
    case Artwork =>
      assert Values(m, key) + [] == Values(m, key);
    case Unknown =>
      assert Values(m, key) + [] == Values(m, key);
  }

  /** Cover art appends one image per value; no other atom touches the images. */
  lemma ImportAtomShape(tt: TagTables, m: Metadata, id: string, v: AtomValue, decode: Decoder)
    requires tt.Valid()
    requires WellTyped(tt, id, v)
    ensures ImportAtom(tt, m, id, v, decode).artwork ==
      if Classify(tt, id).Artwork? then m.artwork + v.images else m.artwork
  {
  }

  predicate AllWellTyped(tt: TagTables, items: seq<(string, AtomValue)>)
    requires tt.Valid()
  {
    forall i :: 0 <= i < |items| ==> WellTyped(tt, items[i].0, items[i].1)
  }

  /** `for name, values in file.tags.items(): ...` starting from an empty
      record: the atoms are visited in the order the dictionary lists them.
      The record holds no empty value list, and every key in it is fed by
      one of the atoms. */
  function Import(tt: TagTables, items: seq<(string, AtomValue)>, decode: Decoder): (r: Metadata)
    requires tt.Valid()
    requires AllWellTyped(tt, items)
    ensures Normal(r)
    ensures forall k :: k in r.tags ==> exists i :: 0 <= i < |items| && k in KeysOf(tt, items[i].0)
  {
    if |items| == 0 then Empty
    else
      var pre := items[..|items| - 1];
      var last := items[|items| - 1];
      var r := ImportAtom(tt, Import(tt, pre, decode), last.0, last.1, decode);
      assert forall i :: 0 <= i < |pre| ==> pre[i] == items[i];
      r
  }

  /** The keys the import can fill: those of the three reverse tables and of
      the two number pairs. */
  function CandidateKeys(tt: TagTables): set<string>
    requires tt.Valid()
  {
    tt.ReverseText().Keys + tt.ReverseFlags().Keys + tt.ReverseFreeform().Keys + PairKeys
  }

  /** What a key holds after importing container `t`: the contribution of the
      one atom the key is imported from, nothing when that atom is absent. */
  function ExpectedValues(tt: TagTables, t: Tags, key: string, decode: Decoder): seq<string>
    requires tt.Valid()
    requires WellTypedTags(tt, t)
  {
    match SourceAtom(tt, key)
    case None => []
    case Some(a) => if a in t then Contribution(tt, a, t[a], key, decode) else []
  }

  /** The record importing container `t` yields, defined key by key without
      reference to the order in which the atoms are visited. */
  function Expected(tt: TagTables, t: Tags, decode: Decoder): (m: Metadata)
    requires tt.Valid()
    requires WellTypedTags(tt, t)
    ensures Normal(m)
  {
    Metadata(
      map k | k in CandidateKeys(tt) && |ExpectedValues(tt, t, k, decode)| > 0 :: ExpectedValues(tt, t, k, decode),
      if CoverAtom in t then t[CoverAtom].images else [])
  }

  lemma ValuesOfExpected(tt: TagTables, t: Tags, key: string, decode: Decoder)
    requires tt.Valid()
    requires WellTypedTags(tt, t)
    ensures Values(Expected(tt, t, decode), key) == ExpectedValues(tt, t, key, decode)
  {
    if SourceAtom(tt, key).Some? {
      assert key in CandidateKeys(tt);
    }
  }

  /** Adding an atom to a container changes only the keys that atom feeds. */
  lemma ExpectedValuesFrame(tt: TagTables, t: Tags, id: string, v: AtomValue, key: string, decode: Decoder)
    requires tt.Valid()
    requires WellTypedTags(tt, t) && id !in t && WellTyped(tt, id, v) && key !in KeysOf(tt, id)
    ensures WellTypedTags(tt, t[id := v])
    ensures ExpectedValues(tt, t[id := v], key, decode) == ExpectedValues(tt, t, key, decode)
  {
  }

  /** A key an atom feeds is empty until that atom arrives, and then holds
      exactly the atom's contribution. */
  lemma ExpectedValuesNew(tt: TagTables, t: Tags, id: string, v: AtomValue, key: string, decode: Decoder)
    requires tt.Valid()
    requires WellTypedTags(tt, t) && id !in t && WellTyped(tt, id, v) && key in KeysOf(tt, id)
    ensures WellTypedTags(tt, t[id := v])
    ensures ExpectedValues(tt, t, key, decode) == []
    ensures ExpectedValues(tt, t[id := v], key, decode) == Contribution(tt, id, v, key, decode)
  {
    SourceAtomIsUnique(tt, id, key);
  }

  /** Key by key, for a key the new atom feeds. */
  lemma ImportAtomExtendsFed(tt: TagTables, t: Tags, id: string, v: AtomValue, key: string, decode: Decoder)
    requires tt.Valid()
    requires WellTypedTags(tt, t) && id !in t && WellTyped(tt, id, v) && key in KeysOf(tt, id)
    ensures WellTypedTags(tt, t[id := v])
    ensures Values(ImportAtom(tt, Expected(tt, t, decode), id, v, decode), key) == Values(Expected(tt, t[id := v], decode), key)
  {
    assert WellTypedTags(tt, t[id := v]);
    ImportAtomValues(tt, Expected(tt, t, decode), id, v, key, decode);
    ValuesOfExpected(tt, t, key, decode);
    ValuesOfExpected(tt, t[id := v], key, decode);
    ExpectedValuesNew(tt, t, id, v, key, decode);
  }

  /** Key by key, for a key the new atom does not feed. */
  lemma ImportAtomExtendsUnfed(tt: TagTables, t: Tags, id: string, v: AtomValue, key: string, decode: Decoder)
    requires tt.Valid()
    requires WellTypedTags(tt, t) && id !in t && WellTyped(tt, id, v) && key !in KeysOf(tt, id)
    ensures WellTypedTags(tt, t[id := v])
    ensures Values(ImportAtom(tt, Expected(tt, t, decode), id, v, decode), key) == Values(Expected(tt, t[id := v], decode), key)
  {
    assert WellTypedTags(tt, t[id := v]);
    ImportAtomValues(tt, Expected(tt, t, decode), id, v, key, decode);
    ValuesOfExpected(tt, t, key, decode);
    ValuesOfExpected(tt, t[id := v], key, decode);
    ExpectedValuesFrame(tt, t, id, v, key, decode);
    ContributionElsewhere(tt, id, v, key, decode);
  }

  /** Importing one more atom, not yet in the container, into the record of a
      container gives the record of the enlarged container. */
  lemma ImportAtomExtends(tt: TagTables, t: Tags, id: string, v: AtomValue, decode: Decoder)
    requires tt.Valid()
    requires WellTypedTags(tt, t) && id !in t && WellTyped(tt, id, v)
    ensures WellTypedTags(tt, t[id := v])
    ensures ImportAtom(tt, Expected(tt, t, decode), id, v, decode) == Expected(tt, t[id := v], decode)
  {
    var lhs := ImportAtom(tt, Expected(tt, t, decode), id, v, decode);
    var rhs := Expected(tt, t[id := v], decode);
    forall k
      ensures Values(lhs, k) == Values(rhs, k)
    {
      if k in KeysOf(tt, id) {
        ImportAtomExtendsFed(tt, t, id, v, k, decode);
      } else {
        ImportAtomExtendsUnfed(tt, t, id, v, k, decode);
      }
    }
    ImportAtomShape(tt, Expected(tt, t, decode), id, v, decode);
    NormalRecordsEqual(lhs, rhs);
  }

  /** An atom of no table and none of `trkn`, `disk` and `covr` changes
      nothing in the imported record. */
  lemma ImportIgnoresUnknown(tt: TagTables, t: Tags, id: string, v: AtomValue, decode: Decoder)
    requires tt.Valid() && WellTypedTags(tt, t) && id !in t
    requires id !in TableAtoms(tt) && id !in SpecialAtoms
    ensures WellTypedTags(tt, t[id := v])
    ensures Expected(tt, t[id := v], decode) == Expected(tt, t, decode)
  {
    ImportAtomExtends(tt, t, id, v, decode);
  }

  /** `dict(items)`: later items win, and with distinct identifiers every item
      is found under its identifier. */
  function MapOf(items: seq<(string, AtomValue)>): (t: Tags)
    ensures forall id :: id in t <==> exists i :: 0 <= i < |items| && items[i].0 == id
    ensures DistinctIds(items) ==> forall i :: 0 <= i < |items| ==> t[items[i].0] == items[i].1
  {
    if |items| == 0 then map[]
    else
      var last := items[|items| - 1];
      MapOf(items[..|items| - 1])[last.0 := last.1]
  }

  predicate DistinctIds(items: seq<(string, AtomValue)>) {
    forall i, j :: 0 <= i < j < |items| ==> items[i].0 != items[j].0
  }

  lemma {:induction false} MapOfWellTyped(tt: TagTables, items: seq<(string, AtomValue)>)
    requires tt.Valid()
    requires AllWellTyped(tt, items)
    ensures WellTypedTags(tt, MapOf(items))
  {
    if |items| > 0 {
      MapOfWellTyped(tt, items[..|items| - 1]);
    }
  }

  /** Whatever order the container lists its atoms in, the import yields the
      record defined key by key. */
  lemma {:induction false} ImportMatchesReference(tt: TagTables, items: seq<(string, AtomValue)>, decode: Decoder)
    requires tt.Valid()
    requires AllWellTyped(tt, items) && DistinctIds(items)
    ensures WellTypedTags(tt, MapOf(items))
    ensures Import(tt, items, decode) == Expected(tt, MapOf(items), decode)
  {
    MapOfWellTyped(tt, items);
    if |items| > 0 {
      var pre := items[..|items| - 1];
      var last := items[|items| - 1];
      MapOfWellTyped(tt, pre);
      assert DistinctIds(pre);
      ImportMatchesReference(tt, pre, decode);
      assert last.0 !in MapOf(pre);
      ImportAtomExtends(tt, MapOf(pre), last.0, last.1, decode);
    }
  }

  /** The (atom, value) items of a container, in the order listed. */
  function ItemsOf(t: Tags, order: seq<string>): (items: seq<(string, AtomValue)>)
    requires forall i :: 0 <= i < |order| ==> order[i] in t
    ensures |items| == |order|
    ensures forall i :: 0 <= i < |order| ==> items[i] == (order[i], t[order[i]])
  {
    seq(|order|, i requires 0 <= i < |order| => (order[i], t[order[i]]))
  }

  /** The items of a listed container rebuild the container. */
  lemma MapOfItems(t: Tags, order: seq<string>)
    requires IsListing(order, t.Keys)
    ensures DistinctIds(ItemsOf(t, order))
    ensures MapOf(ItemsOf(t, order)) == t
  {
    var items := ItemsOf(t, order);
    var r := MapOf(items);
    assert DistinctIds(items);
    MapOfItemsKeys(t, order);
    forall id | id in t
      ensures id in r && r[id] == t[id]
    {
      var i :| 0 <= i < |order| && order[i] == id;
      assert items[i].0 == id;
    }
  }

  /** The items of a listed container name no atom outside it. */
  lemma MapOfItemsKeys(t: Tags, order: seq<string>)
    requires IsListing(order, t.Keys)
    ensures MapOf(ItemsOf(t, order)).Keys <= t.Keys
  {
    var items := ItemsOf(t, order);
    forall id | id in MapOf(items)
      ensures id in t
    {
      var i :| 0 <= i < |items| && items[i].0 == id;
      assert order[i] == id;
    }
  }

  /** `_load` up to the merge into the file's record: the record importing
      every atom of container `t`, in the order `order` lists them. Whatever
      the order, it is the record `Expected` defines key by key. */
  function Load(tt: TagTables, t: Tags, order: seq<string>, decode: Decoder): (m: Metadata)
    requires tt.Valid() && WellTypedTags(tt, t) && IsListing(order, t.Keys)
    ensures m == Expected(tt, t, decode)
    ensures Normal(m)
  {
    var items := ItemsOf(t, order);
    MapOfItems(t, order);
    ImportMatchesReference(tt, items, decode);
    Import(tt, items, decode)
  }
}
