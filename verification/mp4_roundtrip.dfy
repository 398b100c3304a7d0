/** The two directions composed: what survives importing a file's atoms and
    exporting the record back, and what survives exporting a record and
    importing it again. */
module Mp4RoundTrip {
  import opened Results
  import opened ByteStrings
  import opened Utf8
  import opened Decimal
  import opened Listings
  import opened Mp4Tables
  import opened Records
  import opened Atoms
  import opened Mp4Load
  import opened Mp4Save

  /** A free-form value the export writes back byte for byte after the
      import: no NUL byte at either end, and text the decoder reads that
      encodes back to the same bytes. */
  predicate Restorable(b: Bytes, decode: Decoder) {
    NulFreeEnds(b) && Encode(decode(b)) == b
  }

  predicate BlobsRestorable(tt: TagTables, t: Tags, decode: Decoder) {
    forall a, i :: a in t && a in tt.freeform && t[a].Blobs? && 0 <= i < |t[a].blobs| ==>
      Restorable(t[a].blobs[i], decode)
  }

  /** The key of a table atom is the one key it feeds. */
  lemma TableAtomFeeds(tt: TagTables, a: string)
    requires tt.Valid() && a in TableAtoms(tt)
    ensures IsTableAtom(Classify(tt, a)) && Classify(tt, a).key == AtomKey(tt, a)
    ensures KeysOf(tt, a) == {AtomKey(tt, a)}
  {
  }

  /** A key an atom feeds holds, after the import, that atom's contribution,
      or nothing when the atom is absent. */
  lemma ImportedFrom(tt: TagTables, t: Tags, decode: Decoder, id: string, key: string)
    requires tt.Valid() && WellTypedTags(tt, t) && key in KeysOf(tt, id)
    ensures Values(Expected(tt, t, decode), key) ==
      if id in t then Contribution(tt, id, t[id], key, decode) else []
  {
    SourceAtomIsUnique(tt, id, key);
    ValuesOfExpected(tt, t, key, decode);
  }

  /** A table atom's key is in the imported record only when the atom is in
      the container, and then holds the atom's contribution. */
  lemma ImportedTableKey(tt: TagTables, t: Tags, decode: Decoder, a: string)
    requires tt.Valid() && WellTypedTags(tt, t) && a in TableAtoms(tt)
    requires AtomKey(tt, a) in Expected(tt, t, decode).tags
    ensures a in t
    ensures Expected(tt, t, decode).tags[AtomKey(tt, a)] == Contribution(tt, a, t[a], AtomKey(tt, a), decode)
  {
    TableAtomFeeds(tt, a);
    ImportedFrom(tt, t, decode, a, AtomKey(tt, a));
  }

  /** Exporting what a table atom contributed gives the atom back. */
  lemma ExportRestoresAtom(tt: TagTables, t: Tags, decode: Decoder, a: string)
    requires tt.Valid() && WellTypedTags(tt, t) && BlobsRestorable(tt, t, decode)
    requires a in TableAtoms(tt) && a in t
    ensures a in tt.flags ==> |Contribution(tt, a, t[a], AtomKey(tt, a), decode)| > 0
    ensures ExportValue(tt, a, Contribution(tt, a, t[a], AtomKey(tt, a), decode)) == t[a]
  {
    TableAtomFeeds(tt, a);
    if a in tt.freeform {
      var bs := t[a].blobs;
      var back := EncodeAll(DecodeBlobs(bs, decode));
      forall i | 0 <= i < |bs|
        ensures back[i] == bs[i]
      {
        assert Restorable(bs[i], decode);
        StripNulOfClean(bs[i]);
      }
      assert back == bs;
    }
  }

  /** A number pair's keys are in the imported record only when its atom is
      in the container, and then hold the decimal forms of the pair. */
  lemma ImportedPair(tt: TagTables, t: Tags, decode: Decoder, id: string, numberKey: string, totalKey: string)
    requires tt.Valid() && WellTypedTags(tt, t)
    requires (id, numberKey, totalKey) == (TrackAtom, TrackNumberKey, TotalTracksKey)
          || (id, numberKey, totalKey) == (DiscAtom, DiscNumberKey, TotalDiscsKey)
    requires Has(Expected(tt, t, decode), numberKey)
    ensures id in t && t[id].Pair?
    ensures Has(Expected(tt, t, decode), totalKey)
    ensures Values(Expected(tt, t, decode), numberKey) == [IntToString(t[id].current)]
    ensures Values(Expected(tt, t, decode), totalKey) == [IntToString(t[id].total)]
  {
    assert numberKey in KeysOf(tt, id) && totalKey in KeysOf(tt, id);
    ImportedFrom(tt, t, decode, id, numberKey);
    ImportedFrom(tt, t, decode, id, totalKey);
  }

  /** The numbers an imported record holds parse back to the pair. */
  lemma ImportedPairReadable(tt: TagTables, t: Tags, decode: Decoder, id: string, numberKey: string, totalKey: string)
    requires tt.Valid() && WellTypedTags(tt, t)
    requires (id, numberKey, totalKey) == (TrackAtom, TrackNumberKey, TotalTracksKey)
          || (id, numberKey, totalKey) == (DiscAtom, DiscNumberKey, TotalDiscsKey)
    ensures PairReadable(Expected(tt, t, decode), numberKey, totalKey)
    ensures Has(Expected(tt, t, decode), numberKey) ==>
      && id in t && Has(Expected(tt, t, decode), totalKey)
      && Pair(Number(Expected(tt, t, decode), numberKey), Number(Expected(tt, t, decode), totalKey)) == t[id]
  {
    var m := Expected(tt, t, decode);
    if Has(m, numberKey) {
      ImportedPair(tt, t, decode, id, numberKey, totalKey);
      ParseIntOfIntToString(t[id].current);
      ParseIntOfIntToString(t[id].total);
    }
  }

  /** An imported record has a value for every flag and numbers that parse,
      so exporting it succeeds. */
  lemma ImportedRecordSaves(tt: TagTables, t: Tags, order: seq<string>, decode: Decoder)
    requires tt.Valid() && WellTypedTags(tt, t)
    requires IsListing(order, Expected(tt, t, decode).tags.Keys)
    ensures Save(tt, Expected(tt, t, decode), order, t, false).Ok?
  {
    var m := Expected(tt, t, decode);
    ImportedPairReadable(tt, t, decode, TrackAtom, TrackNumberKey, TotalTracksKey);
    ImportedPairReadable(tt, t, decode, DiscAtom, DiscNumberKey, TotalDiscsKey);
    assert FlagsFilled(tt, m, m.tags.Keys);
  }

  /** One atom of `LoadThenSave`. */
  lemma LoadThenSaveAt(tt: TagTables, t: Tags, order: seq<string>, decode: Decoder, a: string)
    requires tt.Valid() && WellTypedTags(tt, t) && BlobsRestorable(tt, t, decode)
    requires IsListing(order, Expected(tt, t, decode).tags.Keys)
    requires Save(tt, Expected(tt, t, decode), order, t, false).Ok?
    requires a in Save(tt, Expected(tt, t, decode), order, t, false).value
    ensures a in t && Save(tt, Expected(tt, t, decode), order, t, false).value[a] == t[a]
  {
    var m := Expected(tt, t, decode);
    SaveAtoms(tt, m, order, t, false);
    if Targeted(tt, m, a) {
      SaveTableAtoms(tt, m, order, t, false, a);
      ImportedTableKey(tt, t, decode, a);
      ExportRestoresAtom(tt, t, decode, a);
    } else if a == TrackAtom && Has(m, TrackNumberKey) {
      SaveNumberPairs(tt, m, order, t, false);
      ImportedPairReadable(tt, t, decode, TrackAtom, TrackNumberKey, TotalTracksKey);
    } else if a == DiscAtom && Has(m, DiscNumberKey) {
      SaveNumberPairs(tt, m, order, t, false);
      ImportedPairReadable(tt, t, decode, DiscAtom, DiscNumberKey, TotalDiscsKey);
    } else {
      SaveKeepsOthers(tt, m, order, t, a);
    }
  }

  /** Importing a container and exporting the record over the same container,
      without clearing it, leaves every atom as it was, provided every
      free-form value survives decoding and encoding. Atoms of no table,
      cover art and empty lists are untouched; table atoms, `trkn` and `disk`
      are rewritten with the values they had. */
  lemma LoadThenSave(tt: TagTables, t: Tags, order: seq<string>, decode: Decoder)
    requires tt.Valid() && WellTypedTags(tt, t) && BlobsRestorable(tt, t, decode)
    requires IsListing(order, Expected(tt, t, decode).tags.Keys)
    ensures Save(tt, Expected(tt, t, decode), order, t, false) == Ok(t)
  {
    var m := Expected(tt, t, decode);
    ImportedRecordSaves(tt, t, order, decode);
    var w := Save(tt, m, order, t, false).value;
    SaveAtoms(tt, m, order, t, false);
    forall a | a in w
      ensures a in t && w[a] == t[a]
    {
      LoadThenSaveAt(tt, t, order, decode, a);
    }
    forall a | a in t
      ensures a in w
    {
    }
    assert w == t;
    var r := Save(tt, m, order, t, false);
    assert r == Ok(w);
  }

  /** A number as `str()` writes it: a single value, the decimal form of the
      integer it parses to. */
  predicate CanonicalNumber(m: Metadata, key: string) {
    key in m.tags ==>
      && |m.tags[key]| == 1
      && ParseInt(m.tags[key][0]).Some?
      && IntToString(ParseInt(m.tags[key][0]).value) == m.tags[key][0]
  }

  /** The number and the total of a pair are present together, both in
      decimal form. */
  predicate CanonicalPair(m: Metadata, numberKey: string, totalKey: string) {
    && (numberKey in m.tags <==> totalKey in m.tags)
    && CanonicalNumber(m, numberKey) && CanonicalNumber(m, totalKey)
  }

  /** A record the export writes and the import reads back as it was: no
      empty value list; only keys the tables or the number pairs carry; each
      flag holding "0" or "1" alone; no free-form value with a NUL character
      at either end; number pairs complete and in decimal form. */
  predicate Canonical(tt: TagTables, m: Metadata)
    requires tt.Valid()
  {
    && Normal(m)
    && (forall k :: k in m.tags ==> SupportsTag(tt, k) || k in PairKeys)
    && (forall a :: a in tt.flags && tt.flags[a] in m.tags ==>
          m.tags[tt.flags[a]] == ["0"] || m.tags[tt.flags[a]] == ["1"])
    && (forall a, i :: a in tt.freeform && tt.freeform[a] in m.tags && 0 <= i < |m.tags[tt.freeform[a]]| ==>
          NulFreeText(m.tags[tt.freeform[a]][i]))
    && CanonicalPair(m, TrackNumberKey, TotalTracksKey)
    && CanonicalPair(m, DiscNumberKey, TotalDiscsKey)
  }

  /** A canonical record exports without error. */
  lemma CanonicalSaves(tt: TagTables, m: Metadata, order: seq<string>, tags: Tags, clear: bool)
    requires tt.Valid() && Canonical(tt, m) && IsListing(order, m.tags.Keys)
    ensures Save(tt, m, order, tags, clear).Ok?
  {
    assert FlagsFilled(tt, m, m.tags.Keys);
    assert NumbersReadable(m);
  }

  /** The export writes every atom with the value shape the import expects. */
  lemma SavedWellTyped(tt: TagTables, m: Metadata, order: seq<string>, tags: Tags, clear: bool)
    requires tt.Valid() && IsListing(order, m.tags.Keys) && WellTypedTags(tt, tags)
    requires Save(tt, m, order, tags, clear).Ok?
    ensures WellTypedTags(tt, Save(tt, m, order, tags, clear).value)
  {
    var w := Save(tt, m, order, tags, clear).value;
    SaveAtoms(tt, m, order, tags, clear);
    SaveNumberPairs(tt, m, order, tags, clear);
    forall a | a in w
      ensures WellTyped(tt, a, w[a])
    {
      if Targeted(tt, m, a) {
        SaveTableAtoms(tt, m, order, tags, clear, a);
      } else if !((a == TrackAtom && Has(m, TrackNumberKey)) || (a == DiscAtom && Has(m, DiscNumberKey))) {
        SaveKeepsOthers(tt, m, order, tags, a);
      }
    }
  }

  /** Importing the atom the export writes for a key of a canonical record
      gives the key's values back. */
  lemma ReadBackTableAtom(tt: TagTables, m: Metadata, decode: Decoder, a: string)
    requires tt.Valid() && Canonical(tt, m) && InvertsEncode(decode)
    requires a in TableAtoms(tt) && AtomKey(tt, a) in m.tags
    ensures a in tt.flags ==> |m.tags[AtomKey(tt, a)]| > 0
    ensures WellTyped(tt, a, ExportValue(tt, a, m.tags[AtomKey(tt, a)]))
    ensures Contribution(tt, a, ExportValue(tt, a, m.tags[AtomKey(tt, a)]), AtomKey(tt, a), decode) == m.tags[AtomKey(tt, a)]
  {
    TableAtomFeeds(tt, a);
    var values := m.tags[AtomKey(tt, a)];
    if a in tt.freeform {
      var back := DecodeBlobs(EncodeAll(values), decode);
      forall i | 0 <= i < |values|
        ensures back[i] == values[i]
      {
        assert NulFreeText(values[i]);
        EncodeKeepsNulFreeEnds(values[i]);
        StripNulOfClean(Encode(values[i]));
      }
      assert back == values;
    }
  }

  /** Save-then-load for a key a table atom feeds. */
  lemma ReadBackTableKey(tt: TagTables, m: Metadata, order: seq<string>, tags: Tags, clear: bool, decode: Decoder, a: string)
    requires tt.Valid() && Canonical(tt, m) && InvertsEncode(decode)
    requires IsListing(order, m.tags.Keys) && WellTypedTags(tt, tags)
    requires Save(tt, m, order, tags, clear).Ok?
    requires a in TableAtoms(tt) && (AtomKey(tt, a) in m.tags || clear)
    ensures WellTypedTags(tt, Save(tt, m, order, tags, clear).value)
    ensures Values(Expected(tt, Save(tt, m, order, tags, clear).value, decode), AtomKey(tt, a)) == Values(m, AtomKey(tt, a))
  {
    var w := Save(tt, m, order, tags, clear).value;
    SavedWellTyped(tt, m, order, tags, clear);
    TableAtomFeeds(tt, a);
    ImportedFrom(tt, w, decode, a, AtomKey(tt, a));
    if AtomKey(tt, a) in m.tags {
      SaveTableAtoms(tt, m, order, tags, clear, a);
      ReadBackTableAtom(tt, m, decode, a);
    } else {
      SaveAtoms(tt, m, order, tags, clear);
      assert a !in w;
    }
  }

  /** A number in decimal form is written back as it was read. */
  lemma ReadBackNumber(m: Metadata, key: string)
    requires CanonicalNumber(m, key) && key in m.tags
    ensures [IntToString(Number(m, key))] == m.tags[key]
  {
    assert Get(m, key) == m.tags[key][0];
  }

  /** The export writes a number pair only when the record holds its
      number. */
  lemma PairAtomWritten(tt: TagTables, m: Metadata, order: seq<string>, tags: Tags, clear: bool,
                        id: string, numberKey: string, totalKey: string)
    requires tt.Valid() && IsListing(order, m.tags.Keys)
    requires Save(tt, m, order, tags, clear).Ok?
    requires (id, numberKey, totalKey) == (TrackAtom, TrackNumberKey, TotalTracksKey)
          || (id, numberKey, totalKey) == (DiscAtom, DiscNumberKey, TotalDiscsKey)
    ensures Has(m, numberKey) ==>
      && id in Save(tt, m, order, tags, clear).value
      && Save(tt, m, order, tags, clear).value[id] ==
           Pair(Number(m, numberKey), if Has(m, totalKey) then Number(m, totalKey) else 0)
    ensures !Has(m, numberKey) && clear ==> id !in Save(tt, m, order, tags, clear).value
  {
    SaveNumberPairs(tt, m, order, tags, clear);
    SaveAtoms(tt, m, order, tags, clear);
    assert id !in TableAtoms(tt);
  }

  /** Importing a container whose number pair atom is written from a
      canonical record gives the pair's keys back. */
  lemma ReadBackPairAtom(tt: TagTables, m: Metadata, w: Tags, decode: Decoder,
                         id: string, numberKey: string, totalKey: string, key: string)
    requires tt.Valid() && WellTypedTags(tt, w) && CanonicalPair(m, numberKey, totalKey)
    requires (id, numberKey, totalKey) == (TrackAtom, TrackNumberKey, TotalTracksKey)
          || (id, numberKey, totalKey) == (DiscAtom, DiscNumberKey, TotalDiscsKey)
    requires key == numberKey || key == totalKey
    requires Has(m, numberKey) ==>
      id in w && w[id] == Pair(Number(m, numberKey), if Has(m, totalKey) then Number(m, totalKey) else 0)
    requires !Has(m, numberKey) ==> id !in w
    ensures Values(Expected(tt, w, decode), key) == Values(m, key)
  {
    assert key in KeysOf(tt, id);
    ImportedFrom(tt, w, decode, id, key);
    if Has(m, numberKey) {
      ReadBackNumber(m, key);
      assert Contribution(tt, id, w[id], key, decode) == [IntToString(Number(m, key))];
    }
  }

  /** Save-then-load for the two keys of a number pair. */
  lemma ReadBackPair(tt: TagTables, m: Metadata, order: seq<string>, tags: Tags, clear: bool, decode: Decoder,
                     id: string, numberKey: string, totalKey: string, key: string)
    requires tt.Valid() && Canonical(tt, m)
    requires IsListing(order, m.tags.Keys) && WellTypedTags(tt, tags)
    requires Save(tt, m, order, tags, clear).Ok?
    requires (id, numberKey, totalKey) == (TrackAtom, TrackNumberKey, TotalTracksKey)
          || (id, numberKey, totalKey) == (DiscAtom, DiscNumberKey, TotalDiscsKey)
    requires key == numberKey || key == totalKey
    requires key in m.tags || clear
    ensures WellTypedTags(tt, Save(tt, m, order, tags, clear).value)
    ensures Values(Expected(tt, Save(tt, m, order, tags, clear).value, decode), key) == Values(m, key)
  {
    var w := Save(tt, m, order, tags, clear).value;
    SavedWellTyped(tt, m, order, tags, clear);
    PairAtomWritten(tt, m, order, tags, clear, id, numberKey, totalKey);
    assert CanonicalPair(m, numberKey, totalKey);
    ReadBackPairAtom(tt, m, w, decode, id, numberKey, totalKey, key);
  }

  /** Save-then-load for any key the record holds, and with `clear` for any
      key at all. */
  lemma ReadBackKey(tt: TagTables, m: Metadata, order: seq<string>, tags: Tags, clear: bool, decode: Decoder, key: string)
    requires tt.Valid() && Canonical(tt, m) && InvertsEncode(decode)
    requires IsListing(order, m.tags.Keys) && WellTypedTags(tt, tags)
    requires Save(tt, m, order, tags, clear).Ok?
    requires key in m.tags || clear
    ensures WellTypedTags(tt, Save(tt, m, order, tags, clear).value)
    ensures Values(Expected(tt, Save(tt, m, order, tags, clear).value, decode), key) == Values(m, key)
  {
    var w := Save(tt, m, order, tags, clear).value;
    SavedWellTyped(tt, m, order, tags, clear);
    if key == TrackNumberKey || key == TotalTracksKey {
      ReadBackPair(tt, m, order, tags, clear, decode, TrackAtom, TrackNumberKey, TotalTracksKey, key);
    } else if key == DiscNumberKey || key == TotalDiscsKey {
      ReadBackPair(tt, m, order, tags, clear, decode, DiscAtom, DiscNumberKey, TotalDiscsKey, key);
    } else if SupportsTag(tt, key) {
      ReadBackTableKey(tt, m, order, tags, clear, decode, SourceAtom(tt, key).value);
    } else {
      ValuesOfExpected(tt, w, key, decode);
    }
  }

  /** Exporting a canonical record into a cleared container and importing the
      result gives the record back, with no cover art: the cleared container
      holds no `covr` atom and the export writes none. */
  lemma SaveThenLoad(tt: TagTables, m: Metadata, order: seq<string>, tags: Tags, decode: Decoder)
    requires tt.Valid() && Canonical(tt, m) && InvertsEncode(decode)
    requires IsListing(order, m.tags.Keys) && WellTypedTags(tt, tags)
    ensures Save(tt, m, order, tags, true).Ok?
    ensures WellTypedTags(tt, Save(tt, m, order, tags, true).value)
    ensures Expected(tt, Save(tt, m, order, tags, true).value, decode) == Metadata(m.tags, [])
  {
    CanonicalSaves(tt, m, order, tags, true);
    var w := Save(tt, m, order, tags, true).value;
    SavedWellTyped(tt, m, order, tags, true);
    var back := Expected(tt, w, decode);
    forall k
      ensures Values(back, k) == Values(Metadata(m.tags, []), k)
    {
      ReadBackKey(tt, m, order, tags, true, decode, k);
    }
    SaveAtoms(tt, m, order, tags, true);
    assert CoverAtom !in w;
    NormalRecordsEqual(back, Metadata(m.tags, []));
  }

  /** Exporting a canonical record over a container without clearing it and
      importing the result gives every key of the record back with its
      values, and the container's cover art as it was. */
  lemma SaveThenLoadKeeping(tt: TagTables, m: Metadata, order: seq<string>, tags: Tags, decode: Decoder)
    requires tt.Valid() && Canonical(tt, m) && InvertsEncode(decode)
    requires IsListing(order, m.tags.Keys) && WellTypedTags(tt, tags)
    ensures Save(tt, m, order, tags, false).Ok?
    ensures WellTypedTags(tt, Save(tt, m, order, tags, false).value)
    ensures forall k :: k in m.tags ==> Values(Expected(tt, Save(tt, m, order, tags, false).value, decode), k) == m.tags[k]
    ensures Expected(tt, Save(tt, m, order, tags, false).value, decode).artwork == Expected(tt, tags, decode).artwork
  {
    CanonicalSaves(tt, m, order, tags, false);
    var w := Save(tt, m, order, tags, false).value;
    SavedWellTyped(tt, m, order, tags, false);
    forall k | k in m.tags
      ensures Values(Expected(tt, w, decode), k) == m.tags[k]
    {
      ReadBackKey(tt, m, order, tags, false, decode, k);
    }
    if CoverAtom in tags {
      assert !Targeted(tt, m, CoverAtom);
      SaveKeepsOthers(tt, m, order, tags, CoverAtom);
    } else {
      SaveAtoms(tt, m, order, tags, false);
    }
  }
}
