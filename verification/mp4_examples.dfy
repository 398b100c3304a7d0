/** Worked cases: a few over the tables of the MP4 format, the rest over any
    tables that meet `TagTables.Valid`. */
module Mp4Examples {
  import opened Results
  import opened ByteStrings
  import opened Utf8
  import opened Decimal
  import opened Mp4Tables
  import opened Records
  import opened Atoms
  import opened Mp4Load
  import opened Mp4Save
  import opened Listings
  import opened Mp4RoundTrip

  /** `supports_tag("artist")` holds for the MP4 tables. */
  lemma SupportsArtist()
    ensures Standard.Valid() && SupportsTag(Standard, "artist")
  {
    StandardValid();
    assert "\U{A9}ART" in TextTags && TextTags["\U{A9}ART"] == "artist";
    assert "artist" in Standard.text.Values;
  }

  /** `supports_tag("compilation")` holds: a flag atom. */
  lemma SupportsCompilation()
    ensures Standard.Valid() && SupportsTag(Standard, "compilation")
  {
    StandardValid();
    assert "cpil" in BoolTags;
  }

  /** The artwork key is not a supported tag: it is in none of the tables. */
  lemma ArtworkUnsupported()
    ensures Standard.Valid() && !SupportsTag(Standard, "~artwork")
  {
    StandardValid();
    assert "~artwork" !in TextTags.Values;
    assert "~artwork" !in BoolTags.Values;
    assert "~artwork" !in FreeformTags.Values;
  }

  /** The number keys are not supported tags under any valid tables. */
  lemma NumberKeysUnsupported(tt: TagTables)
    requires tt.Valid()
    ensures !SupportsTag(tt, "tracknumber") && !SupportsTag(tt, "totaltracks")
    ensures !SupportsTag(tt, "discnumber") && !SupportsTag(tt, "totaldiscs")
  {
  }

  /** The artist atom imports as the artist key. */
  lemma ClassifyArtist()
    ensures Standard.Valid() && Classify(Standard, "\U{A9}ART") == TextAtom("artist")
  {
    StandardValid();
  }

  /** `trkn (3, 12)` imports as track 3 of 12, replacing what was there. */
  lemma ImportTrackPair(tt: TagTables, m: Metadata, decode: Decoder)
    requires tt.Valid()
    ensures var r := ImportAtom(tt, m, "trkn", Pair(3, 12), decode);
      Values(r, "tracknumber") == ["3"] && Values(r, "totaltracks") == ["12"]
  {
    ImportAtomValues(tt, m, "trkn", Pair(3, 12), "tracknumber", decode);
    ImportAtomValues(tt, m, "trkn", Pair(3, 12), "totaltracks", decode);
    assert IntToString(3) == "3";
    assert IntToString(12) == "12";
  }

  /** A record holding only track number "3" exports as `trkn (3, 0)`. */
  lemma ExportTrackWithoutTotal(tt: TagTables)
    requires tt.Valid()
    ensures Save(tt, Metadata(map["tracknumber" := ["3"]], []), ["tracknumber"], map[], false)
         == Ok(map["trkn" := Pair(3, 0)])
  {
    var m := Metadata(map["tracknumber" := ["3"]], []);
    ParseIntOfDigits("3");
    assert ParseInt("3") == Some(3);
    assert FlagsFilled(tt, m, m.tags.Keys);
    SaveRejectsNonNumbers(tt, m, ["tracknumber"], map[], false);
    SaveNumberPairs(tt, m, ["tracknumber"], map[], false);
    SaveAtoms(tt, m, ["tracknumber"], map[], false);
  }

  /** A track number that is not a number stops the export. */
  lemma ExportRejectsNonNumber(tt: TagTables)
    requires tt.Valid()
    ensures Save(tt, Metadata(map["tracknumber" := ["three"]], []), ["tracknumber"], map[], false)
         == Err(NotAnInteger("tracknumber", "three"))
  {
    var m := Metadata(map["tracknumber" := ["three"]], []);
    assert ParseInt("three") == None by {
      assert StripSpace("three") == "three";
    }
    assert FlagsFilled(tt, m, m.tags.Keys);
    SaveRejectsNonNumbers(tt, m, ["tracknumber"], map[], false);
  }

  /** "café" stored with NUL padding in a free-form atom imports as "café"
      under any decoder that reads UTF-8. */
  lemma CafeImports(tt: TagTables, id: string, key: string, decode: Decoder)
    requires tt.Valid() && Classify(tt, id) == FreeformAtom(key)
    requires InvertsEncode(decode)
    ensures Contribution(tt, id, Blobs([Encode("caf\U{E9}") + Nuls(2)]), key, decode) == ["caf\U{E9}"]
  {
    var bytes := Encode("caf\U{E9}");
    EncodeCafe();
    EncodeKeepsNulFreeEnds("caf\U{E9}");
    StripNulOfPadded(0, bytes, 2);
    assert Nuls(0) + bytes + Nuls(2) == bytes + Nuls(2);
  }

  /** Track -3 of 12, as the import would leave it. */
  function TrackMinusThree(): Metadata {
    Metadata(map["tracknumber" := ["-3"], "totaltracks" := ["12"]], [])
  }

  /** Track -3 of 12 is canonical under any valid tables: both numbers are in
      decimal form and nothing else is in the record. */
  lemma TrackMinusThreeCanonical(tt: TagTables)
    requires tt.Valid()
    ensures Canonical(tt, TrackMinusThree())
  {
    TrackMinusThreeNumbers();
    assert forall k :: k in TrackMinusThree().tags ==> k in PairKeys;
  }

  /** "-3" and "12" are the decimal forms of the numbers they read as. */
  lemma TrackMinusThreeNumbers()
    ensures CanonicalPair(TrackMinusThree(), TrackNumberKey, TotalTracksKey)
    ensures CanonicalPair(TrackMinusThree(), DiscNumberKey, TotalDiscsKey)
  {
    ParseIntOfIntToString(-3);
    ParseIntOfIntToString(12);
    assert IntToString(-3) == "-3" && IntToString(12) == "12";
  }

  /** Track -3 of 12 survives export into a cleared container and import
      with the decoder `Utf8.Decode`. */
  lemma NegativeTrackRoundTrips(tt: TagTables)
    requires tt.Valid()
    ensures Save(tt, TrackMinusThree(), ["tracknumber", "totaltracks"], map[], true).Ok?
    ensures Expected(tt, Save(tt, TrackMinusThree(), ["tracknumber", "totaltracks"], map[], true).value, Decode)
         == TrackMinusThree()
  {
    TrackMinusThreeCanonical(tt);
    assert IsListing(["tracknumber", "totaltracks"], TrackMinusThree().tags.Keys);
    DecodeInvertsEncode();
    SaveThenLoad(tt, TrackMinusThree(), ["tracknumber", "totaltracks"], map[], Decode);
  }
}
