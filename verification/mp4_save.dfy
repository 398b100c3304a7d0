/** The export direction: `_save`, which writes a metadata record into the
    atom container of a file, after optionally emptying it. */
module Mp4Save {
  import opened Results
  import opened Utf8
  import opened Decimal
  import opened Listings
  import opened Mp4Tables
  import opened Records
  import opened Atoms

  /** Why the export stops before the file is written. The source raises in
      both cases, so `file.save()` is never reached and the file keeps its
      old tags. */
  datatype SaveError =
    | MissingFlagValue(key: string)          // `values[0]` on an empty list
    | NotAnInteger(key: string, text: string) // `int(...)` on a non-number

  /** The atom value the export writes for table atom `a` from the values of
      its key: the text list itself, a flag set exactly when the first value
      is "1", or the values UTF-8 encoded. */
  function ExportValue(tt: TagTables, a: string, values: seq<string>): AtomValue
    requires a in TableAtoms(tt)
    requires a in tt.flags ==> |values| > 0
  {
    if a in tt.text then Texts(values)
    else if a in tt.flags then Flag(values[0] == "1")
    else Blobs(EncodeAll(values))
  }

  /** What the export writes for a table atom: the text list itself, a flag
      set exactly when the first value is "1", or each value UTF-8 encoded,
      in order. Each has the value shape the import expects of that atom. */
  lemma ExportValueMeaning(tt: TagTables, a: string, values: seq<string>)
    requires tt.Valid() && a in TableAtoms(tt)
    requires a in tt.flags ==> |values| > 0
    ensures WellTyped(tt, a, ExportValue(tt, a, values))
    ensures a in tt.text ==> ExportValue(tt, a, values) == Texts(values)
    ensures a in tt.flags ==>
      && ExportValue(tt, a, values).Flag?
      && (ExportValue(tt, a, values).flag <==> values[0] == "1")
    ensures a in tt.freeform ==>
      && ExportValue(tt, a, values).Blobs?
      && |ExportValue(tt, a, values).blobs| == |values|
      && forall i :: 0 <= i < |values| ==> ExportValue(tt, a, values).blobs[i] == Encode(values[i])
  {
  }

  /** One turn of the export loop over the record's items, through the
      reverse tables: the atom to write and its value, nothing for a key no
      table carries, or the error of reading the first value of an empty flag
      list. Seen from the forward tables, the atom written is the one table
      atom whose key this is. */
  function SaveEntry(tt: TagTables, key: string, values: seq<string>): (r: Result<Option<(string, AtomValue)>, SaveError>)
    requires tt.Valid()
    ensures r.Err? <==> key in tt.flags.Values && |values| == 0
    ensures r.Err? ==> r.error == MissingFlagValue(key)
    ensures r == Ok(None) <==> !SupportsTag(tt, key)
    ensures r.Ok? && r.value.Some? ==>
      var (a, v) := r.value.value;
      && a in TableAtoms(tt) && AtomKey(tt, a) == key
      && (a in tt.flags ==> |values| > 0)
      && v == ExportValue(tt, a, values)
  {
    ReverseTablesInvert(tt);
    ReverseKeysDisjoint(tt, key);
    if key in tt.ReverseText() then
      Ok(Some((tt.ReverseText()[key], Texts(values))))
    else if key in tt.ReverseFlags() then
      if |values| == 0 then Err(MissingFlagValue(key))
      else Ok(Some((tt.ReverseFlags()[key], Flag(values[0] == "1"))))
    else if key in tt.ReverseFreeform() then
      Ok(Some((tt.ReverseFreeform()[key], Blobs(EncodeAll(values)))))
    else
      Ok(None)
  }

  /** Writes an atom when there is one to write. */
  function PutAtom(tags: Tags, id: string, v: Option<AtomValue>): Tags {
    if v.Some? then tags[id := v.value] else tags
  }

  /** `for name, values in metadata.rawitems(): ...` over the keys in the
      order listed, stopping at the first error. The only error is a listed
      flag key without a value; no atom is ever removed. */
  function SaveEntries(tt: TagTables, m: Metadata, keys: seq<string>, tags: Tags): (r: Result<Tags, SaveError>)
    requires tt.Valid()
    ensures r.Err? ==>
      && r.error.MissingFlagValue? && r.error.key in keys
      && r.error.key in tt.flags.Values && |Values(m, r.error.key)| == 0
    ensures r.Ok? ==> tags.Keys <= r.value.Keys
    decreases |keys|
  {
    if |keys| == 0 then
      Ok(tags)
    else
      var w :- SaveEntry(tt, keys[0], Values(m, keys[0]));
      var next := if w.Some? then tags[w.value.0 := w.value.1] else tags;
      SaveEntries(tt, m, keys[1..], next)
  }

  /** Every flag key among `keys` has a first value to read. */
  predicate FlagsFilled(tt: TagTables, m: Metadata, keys: set<string>) {
    forall a :: a in tt.flags && tt.flags[a] in keys ==> |Values(m, tt.flags[a])| > 0
  }

  /** What the export loop writes for the record keys in `keys`, found atom by
      atom through the forward tables rather than key by key through the
      reverse ones. */
  function Exported(tt: TagTables, m: Metadata, keys: set<string>): Tags
    requires tt.Valid()
    requires FlagsFilled(tt, m, keys)
  {
    map a | a in TableAtoms(tt) && AtomKey(tt, a) in keys :: ExportValue(tt, a, Values(m, AtomKey(tt, a)))
  }

  /** A key no table carries is the key of no table atom. */
  lemma NoAtomForKey(tt: TagTables, key: string)
    requires tt.Valid() && !SupportsTag(tt, key)
    ensures forall a :: a in TableAtoms(tt) ==> AtomKey(tt, a) != key
  {
    forall a | a in TableAtoms(tt)
      ensures AtomKey(tt, a) != key
    {
      if a in tt.text {
        assert tt.text[a] in tt.text.Values;
      } else if a in tt.flags {
        assert tt.flags[a] in tt.flags.Values;
      } else {
        assert tt.freeform[a] in tt.freeform.Values;
      }
    }
  }

  /** A key no table carries adds nothing to what is exported. */
  lemma ExportedUnsupported(tt: TagTables, m: Metadata, keys: set<string>, key: string)
    requires tt.Valid() && !SupportsTag(tt, key)
    ensures FlagsFilled(tt, m, keys + {key}) <==> FlagsFilled(tt, m, keys)
    ensures FlagsFilled(tt, m, keys) ==> Exported(tt, m, keys + {key}) == Exported(tt, m, keys)
  {
    NoAtomForKey(tt, key);
    assert forall a :: a in tt.flags ==> a in TableAtoms(tt) && AtomKey(tt, a) == tt.flags[a];
  }

  /** A key carried by table atom `a`, with a value if it is a flag, leaves
      the flags as readable as they were. */
  lemma FlagsFilledSupported(tt: TagTables, m: Metadata, keys: set<string>, key: string, a: string)
    requires tt.Valid() && a in TableAtoms(tt) && AtomKey(tt, a) == key
    requires a in tt.flags ==> |Values(m, key)| > 0
    ensures FlagsFilled(tt, m, keys + {key}) <==> FlagsFilled(tt, m, keys)
  {
    forall b | b in tt.flags && tt.flags[b] == key
      ensures b == a
    {
      OneAtomPerKey(tt, a, b);
    }
  }

  /** A key carried by table atom `a` adds that atom to what is exported. */
  lemma ExportedSupported(tt: TagTables, m: Metadata, keys: set<string>, key: string, a: string)
    requires tt.Valid() && key !in keys
    requires a in TableAtoms(tt) && AtomKey(tt, a) == key
    requires a in tt.flags ==> |Values(m, key)| > 0
    requires FlagsFilled(tt, m, keys)
    ensures FlagsFilled(tt, m, keys + {key})
    ensures a !in Exported(tt, m, keys)
    ensures Exported(tt, m, keys + {key}) == Exported(tt, m, keys)[a := ExportValue(tt, a, Values(m, key))]
  {
    FlagsFilledSupported(tt, m, keys, key, a);
    forall b | b in TableAtoms(tt) && AtomKey(tt, b) == key
      ensures b == a
    {
      OneAtomPerKey(tt, a, b);
    }
  }

  /** Adding the first key of the loop to the keys already exported: the atom
      it writes goes on top of the others, and it is none of theirs. */
  lemma ExportedStep(tt: TagTables, m: Metadata, key: string, keys: set<string>, tags: Tags, a: string, v: AtomValue)
    requires tt.Valid() && key !in keys
    requires SaveEntry(tt, key, Values(m, key)) == Ok(Some((a, v)))
    requires FlagsFilled(tt, m, keys)
    ensures FlagsFilled(tt, m, keys + {key})
    ensures tags[a := v] + Exported(tt, m, keys) == tags + Exported(tt, m, keys + {key})
  {
    ExportedSupported(tt, m, keys, key, a);
    OverlayUpdate(tags, Exported(tt, m, keys), a, v);
  }

  /** A flag key without a value makes the set of keys unexportable. */
  lemma UnfilledFlag(tt: TagTables, m: Metadata, key: string, keys: set<string>)
    requires tt.Valid() && key in keys
    requires SaveEntry(tt, key, Values(m, key)).Err?
    ensures !FlagsFilled(tt, m, keys)
  {
    ReverseTablesInvert(tt);
    var a := tt.ReverseFlags()[key];
    assert a in tt.flags && tt.flags[a] in keys;
  }

  /** Whatever order the keys come in, the export loop fails exactly when a
      flag key has no value, and otherwise writes over `tags` exactly the
      atoms `Exported` finds. */
  lemma {:induction false} SaveEntriesMeaning(tt: TagTables, m: Metadata, keys: seq<string>, tags: Tags)
    requires tt.Valid() && Distinct(keys)
    ensures SaveEntries(tt, m, keys, tags).Ok? <==> FlagsFilled(tt, m, Elems(keys))
    ensures SaveEntries(tt, m, keys, tags).Ok? ==>
      SaveEntries(tt, m, keys, tags).value == tags + Exported(tt, m, Elems(keys))
    decreases |keys|
  {
    if |keys| == 0 {
      assert Exported(tt, m, Elems(keys)) == map[];
    } else {
      var key, rest := keys[0], keys[1..];
      assert Elems(keys) == Elems(rest) + {key};
      assert Distinct(rest);
      var e := SaveEntry(tt, key, Values(m, key));
      if e.Err? {
        UnfilledFlag(tt, m, key, Elems(keys));
      } else if e.value.None? {
        SaveEntriesMeaning(tt, m, rest, tags);
        ExportedUnsupported(tt, m, Elems(rest), key);
      } else {
        var (a, v) := e.value.value;
        SaveEntriesMeaning(tt, m, rest, tags[a := v]);
        FlagsFilledSupported(tt, m, Elems(rest), key, a);
        if FlagsFilled(tt, m, Elems(rest)) {
          ExportedStep(tt, m, key, Elems(rest), tags, a, v);
        }
      }
    }
  }

  /** `int(metadata[key])`. */
  function ParseField(m: Metadata, key: string): (r: Result<int, SaveError>)
    ensures r.Ok? <==> ParseInt(Get(m, key)).Some?
    ensures r.Ok? ==> Some(r.value) == ParseInt(Get(m, key))
    ensures r.Err? ==> r.error == NotAnInteger(key, Get(m, key))
  {
    match ParseInt(Get(m, key))
    case None => Err(NotAnInteger(key, Get(m, key)))
    case Some(n) => Ok(n)
  }

  /** Every number the export reads for one atom parses: the number when it
      is present, and the total too when both are. */
  predicate PairReadable(m: Metadata, numberKey: string, totalKey: string) {
    Has(m, numberKey) ==>
      && ParseInt(Get(m, numberKey)).Some?
      && (Has(m, totalKey) ==> ParseInt(Get(m, totalKey)).Some?)
  }

  predicate NumbersReadable(m: Metadata) {
    PairReadable(m, TrackNumberKey, TotalTracksKey) && PairReadable(m, DiscNumberKey, TotalDiscsKey)
  }

  /** The number a key holds. */
  function Number(m: Metadata, key: string): int
    requires ParseInt(Get(m, key)).Some?
  {
    ParseInt(Get(m, key)).value
  }

  /** The number pair of the track or disc atom. There is no atom without the
      number. With it, the pair is the number and the total, or the number
      and 0 when the total is absent; a total without a number is never
      read. The number is read before the total, so when both fail to parse
      the error names the number. */
  function NumberPair(m: Metadata, numberKey: string, totalKey: string): (r: Result<Option<AtomValue>, SaveError>)
    ensures r.Ok? <==> PairReadable(m, numberKey, totalKey)
    ensures r.Ok? ==> (r.value.Some? <==> Has(m, numberKey))
    ensures r.Ok? && r.value.Some? ==>
      r.value.value == Pair(Number(m, numberKey), if Has(m, totalKey) then Number(m, totalKey) else 0)
    ensures r.Err? ==>
      r.error == if ParseInt(Get(m, numberKey)).None? then NotAnInteger(numberKey, Get(m, numberKey))
                 else NotAnInteger(totalKey, Get(m, totalKey))
  {
    if !Has(m, numberKey) then
      Ok(None)
    else
      var n :- ParseField(m, numberKey);
      if Has(m, totalKey) then
        var t :- ParseField(m, totalKey);
        Ok(Some(Pair(n, t)))
      else
        Ok(Some(Pair(n, 0)))
  }

  /** `_save` from its first line to `file.save()`. `clear` stands for the
      `clear_existing_tags` setting, `order` for the order in which the
      record lists its keys, `tags` for the atoms already in the file. The
      export fails exactly when a flag key has no value or a number the
      track or disc atom needs does not parse. */
  function Save(tt: TagTables, m: Metadata, order: seq<string>, tags: Tags, clear: bool): (r: Result<Tags, SaveError>)
    requires tt.Valid() && IsListing(order, m.tags.Keys)
    ensures r.Ok? <==> FlagsFilled(tt, m, m.tags.Keys) && NumbersReadable(m)
  {
    SaveEntriesMeaning(tt, m, order, if clear then map[] else tags);
    assert Elems(order) == m.tags.Keys;
    var written :- SaveEntries(tt, m, order, if clear then map[] else tags);
    var track :- NumberPair(m, TrackNumberKey, TotalTracksKey);
    var disc :- NumberPair(m, DiscNumberKey, TotalDiscsKey);
    Ok(PutAtom(PutAtom(written, TrackAtom, track), DiscAtom, disc))
  }

  /** The table atom a record key is written to. */
  predicate Targeted(tt: TagTables, m: Metadata, a: string) {
    a in TableAtoms(tt) && AtomKey(tt, a) in m.tags
  }

  /** A successful export is the old atoms, or none, overwritten by the
      exported table atoms and then by the two number pairs. */
  lemma SaveShape(tt: TagTables, m: Metadata, order: seq<string>, tags: Tags, clear: bool)
    requires tt.Valid() && IsListing(order, m.tags.Keys)
    requires Save(tt, m, order, tags, clear).Ok?
    ensures FlagsFilled(tt, m, m.tags.Keys) && NumbersReadable(m)
    ensures Save(tt, m, order, tags, clear).value ==
      PutAtom(PutAtom((if clear then map[] else tags) + Exported(tt, m, m.tags.Keys),
                      TrackAtom, NumberPair(m, TrackNumberKey, TotalTracksKey).value),
              DiscAtom, NumberPair(m, DiscNumberKey, TotalDiscsKey).value)
  {
    SaveEntriesMeaning(tt, m, order, if clear then map[] else tags);
    assert Elems(order) == m.tags.Keys;
  }

  /** The atoms a successful export leaves: the table atoms whose key the
      record holds, `trkn` and `disk` when the record holds their number, and
      the atoms already in the file unless the container was cleared. So
      with `clear` an atom of no table other than `trkn` and `disk` is
      dropped, and without it no atom is. */
  lemma SaveAtoms(tt: TagTables, m: Metadata, order: seq<string>, tags: Tags, clear: bool)
    requires tt.Valid() && IsListing(order, m.tags.Keys)
    requires Save(tt, m, order, tags, clear).Ok?
    ensures forall a :: a in Save(tt, m, order, tags, clear).value <==>
      || Targeted(tt, m, a)
      || (a == TrackAtom && Has(m, TrackNumberKey))
      || (a == DiscAtom && Has(m, DiscNumberKey))
      || (!clear && a in tags)
  {
    SaveShape(tt, m, order, tags, clear);
    var x := Exported(tt, m, m.tags.Keys);
    assert forall a :: a in x <==> Targeted(tt, m, a);
  }

  /** Every table atom whose key the record holds is overwritten with the
      value of that key: the text list itself, a flag that is set exactly
      when the first value is "1", or the values UTF-8 encoded. */
  lemma SaveTableAtoms(tt: TagTables, m: Metadata, order: seq<string>, tags: Tags, clear: bool, a: string)
    requires tt.Valid() && IsListing(order, m.tags.Keys)
    requires Save(tt, m, order, tags, clear).Ok?
    requires Targeted(tt, m, a)
    ensures a in Save(tt, m, order, tags, clear).value
    ensures (a in tt.flags ==> |m.tags[AtomKey(tt, a)]| > 0)
    ensures Save(tt, m, order, tags, clear).value[a] == ExportValue(tt, a, m.tags[AtomKey(tt, a)])
    ensures var v := Save(tt, m, order, tags, clear).value[a];
      && (a in tt.text ==> v == Texts(m.tags[tt.text[a]]))
      && (a in tt.flags ==> |m.tags[tt.flags[a]]| > 0 && v == Flag(m.tags[tt.flags[a]][0] == "1"))
      && (a in tt.freeform ==> v == Blobs(EncodeAll(m.tags[tt.freeform[a]])))
  {
    SaveShape(tt, m, order, tags, clear);
    assert TrackAtom !in TableAtoms(tt) && DiscAtom !in TableAtoms(tt);
  }

  /** `trkn` holds the track number with the track total, or with 0 when the
      record has no total; `disk` likewise with the disc keys. */
  lemma SaveNumberPairs(tt: TagTables, m: Metadata, order: seq<string>, tags: Tags, clear: bool)
    requires tt.Valid() && IsListing(order, m.tags.Keys)
    requires Save(tt, m, order, tags, clear).Ok?
    ensures var w := Save(tt, m, order, tags, clear).value;
      && (Has(m, TrackNumberKey) ==>
            TrackAtom in w &&
            w[TrackAtom] == Pair(Number(m, TrackNumberKey),
                                 if Has(m, TotalTracksKey) then Number(m, TotalTracksKey) else 0))
      && (Has(m, DiscNumberKey) ==>
            DiscAtom in w &&
            w[DiscAtom] == Pair(Number(m, DiscNumberKey),
                                if Has(m, TotalDiscsKey) then Number(m, TotalDiscsKey) else 0))
  {
    SaveShape(tt, m, order, tags, clear);
  }

  /** Without `clear`, an atom the export does not target, and that is not
      `trkn` or `disk` written from the record, keeps its old value. */
  lemma SaveKeepsOthers(tt: TagTables, m: Metadata, order: seq<string>, tags: Tags, a: string)
    requires tt.Valid() && IsListing(order, m.tags.Keys)
    requires Save(tt, m, order, tags, false).Ok?
    requires a in tags && !Targeted(tt, m, a)
    requires a == TrackAtom ==> !Has(m, TrackNumberKey)
    requires a == DiscAtom ==> !Has(m, DiscNumberKey)
    ensures a in Save(tt, m, order, tags, false).value
    ensures Save(tt, m, order, tags, false).value[a] == tags[a]
  {
    SaveShape(tt, m, order, tags, false);
    var x := Exported(tt, m, m.tags.Keys);
    assert a !in x;
  }

  /** Which error a failed export reports. An empty flag list is reported
      before any number, as a flag key of the record without a value. With
      every flag filled, the error is the first number that does not parse,
      the track's before the disc's, whatever the key order. */
  lemma SaveErrors(tt: TagTables, m: Metadata, order: seq<string>, tags: Tags, clear: bool)
    requires tt.Valid() && IsListing(order, m.tags.Keys)
    requires Save(tt, m, order, tags, clear).Err?
    ensures var e := Save(tt, m, order, tags, clear).error;
      && (e.MissingFlagValue? <==> !FlagsFilled(tt, m, m.tags.Keys))
      && (e.MissingFlagValue? ==> e.key in m.tags && e.key in tt.flags.Values && |m.tags[e.key]| == 0)
      && (!e.MissingFlagValue? ==>
            e == if !PairReadable(m, TrackNumberKey, TotalTracksKey)
                 then NumberPair(m, TrackNumberKey, TotalTracksKey).error
                 else NumberPair(m, DiscNumberKey, TotalDiscsKey).error)
  {
    SaveEntriesMeaning(tt, m, order, if clear then map[] else tags);
    assert Elems(order) == m.tags.Keys;
  }

  /** The order in which the record lists its keys decides nothing but which
      of several empty flag lists an error names: whether the export
      succeeds, what it writes, and the kind of error it reports are the
      same for every order. */
  lemma SaveOrderIrrelevant(tt: TagTables, m: Metadata, order1: seq<string>, order2: seq<string>, tags: Tags, clear: bool)
    requires tt.Valid() && IsListing(order1, m.tags.Keys) && IsListing(order2, m.tags.Keys)
    ensures Save(tt, m, order1, tags, clear).Ok? <==> Save(tt, m, order2, tags, clear).Ok?
    ensures Save(tt, m, order1, tags, clear).Ok? ==>
      Save(tt, m, order1, tags, clear) == Save(tt, m, order2, tags, clear)
    ensures Save(tt, m, order1, tags, clear).Err? ==>
      (Save(tt, m, order1, tags, clear).error.MissingFlagValue? <==>
       Save(tt, m, order2, tags, clear).error.MissingFlagValue?)
    ensures Save(tt, m, order1, tags, clear).Err? && Save(tt, m, order1, tags, clear).error.NotAnInteger? ==>
      Save(tt, m, order1, tags, clear) == Save(tt, m, order2, tags, clear)
  {
    if Save(tt, m, order1, tags, clear).Ok? {
      SaveShape(tt, m, order1, tags, clear);
      SaveShape(tt, m, order2, tags, clear);
    } else {
      SaveErrors(tt, m, order1, tags, clear);
      SaveErrors(tt, m, order2, tags, clear);
    }
  }

  /** A track or disc number that does not parse stops the export, with
      nothing written; a total is parsed, and can stop it, only when its
      number is present. When every flag has a value, the error names the
      first number to fail, the track's before the disc's. */
  lemma SaveRejectsNonNumbers(tt: TagTables, m: Metadata, order: seq<string>, tags: Tags, clear: bool)
    requires tt.Valid() && IsListing(order, m.tags.Keys)
    ensures Has(m, TrackNumberKey) && ParseInt(Get(m, TrackNumberKey)).None? ==>
      Save(tt, m, order, tags, clear).Err?
    ensures Has(m, DiscNumberKey) && ParseInt(Get(m, DiscNumberKey)).None? ==>
      Save(tt, m, order, tags, clear).Err?
    ensures FlagsFilled(tt, m, m.tags.Keys) && Has(m, TrackNumberKey) && ParseInt(Get(m, TrackNumberKey)).None? ==>
      Save(tt, m, order, tags, clear) == Err(NotAnInteger(TrackNumberKey, Get(m, TrackNumberKey)))
    ensures !Has(m, TrackNumberKey) && !Has(m, DiscNumberKey) ==>
      (Save(tt, m, order, tags, clear).Ok? <==> FlagsFilled(tt, m, m.tags.Keys))
  {
    SaveEntriesMeaning(tt, m, order, if clear then map[] else tags);
    assert Elems(order) == m.tags.Keys;
  }
}
