/** The three static atom-to-key tables of the MP4 format, their inverses, the
    atoms handled outside the tables, and the classification that the import
    loop performs with its chain of membership tests.

    The translation is defined over any `TagTables` value that satisfies
    `Valid` (each table injective, the tables pairwise disjoint on both sides);
    `Standard` holds the tables of the MP4 format and `StandardValid` proves
    that they qualify. */
module Mp4Tables {

  /** The atoms read and written outside the tables. */
  const TrackAtom := "trkn"
  const DiscAtom := "disk"
  const CoverAtom := "covr"

  /** The canonical keys the two number-pair atoms fill. */
  const TrackNumberKey := "tracknumber"
  const TotalTracksKey := "totaltracks"
  const DiscNumberKey := "discnumber"
  const TotalDiscsKey := "totaldiscs"

  const SpecialAtoms: set<string> := {TrackAtom, DiscAtom, CoverAtom}
  const PairKeys: set<string> := {TrackNumberKey, TotalTracksKey, DiscNumberKey, TotalDiscsKey}

  /** No two atoms of a table share a canonical key. */
  predicate Injective(m: map<string, string>) {
    forall a, b :: a in m && b in m && a != b ==> m[a] != m[b]
  }

  /** `dict([(v, k) for k, v in m.iteritems()])`: the key-to-atom direction of
      a table, with every key sent back to the one atom that carries it. */
  function Invert(m: map<string, string>): (r: map<string, string>)
    requires Injective(m)
    ensures r.Keys == m.Values
    ensures forall a :: a in m ==> m[a] in r && r[m[a]] == a
    ensures forall k :: k in r ==> r[k] in m && m[r[k]] == k
  {
    var r := map k | k in m.Values :: var a :| a in m && m[a] == k; a;
    assert forall k :: k in r ==> r[k] in m && m[r[k]] == k;
    assert forall a :: a in m ==> m[a] in r && r[m[a]] == a by {
      forall a | a in m
        ensures m[a] in r && r[m[a]] == a
      {
        assert m[r[m[a]]] == m[a];
      }
    }
    r
  }

  /** The three atom-to-key tables: text atoms, boolean atoms and free-form
      atoms. */
  datatype TagTables = TagTables(text: map<string, string>, flags: map<string, string>, freeform: map<string, string>) {

    /** What the translation relies on: every table is injective, no atom is in
        two tables or is one of the special atoms, and no canonical key is in
        two tables or is one of the keys the number pairs fill. */
    predicate Valid() {
      && Injective(text) && Injective(flags) && Injective(freeform)
      && text.Keys !! flags.Keys && text.Keys !! freeform.Keys && flags.Keys !! freeform.Keys
      && SpecialAtoms !! text.Keys && SpecialAtoms !! flags.Keys && SpecialAtoms !! freeform.Keys
      && text.Values !! flags.Values && text.Values !! freeform.Values && flags.Values !! freeform.Values
      && PairKeys !! text.Values && PairKeys !! flags.Values && PairKeys !! freeform.Values
    }

    function ReverseText(): map<string, string>
      requires Valid()
    {
      Invert(text)
    }

    function ReverseFlags(): map<string, string>
      requires Valid()
    {
      Invert(flags)
    }

    function ReverseFreeform(): map<string, string>
      requires Valid()
    {
      Invert(freeform)
    }
  }

  /** The text atoms of the MP4 format: each value of the atom is one value of the canonical key.
      The lyrics atom appears twice with the same key, as in the source; in a
      map display, as in a dictionary literal, the later binding wins. */
  const TextTags: map<string, string> := map[
    "\U{A9}ART" := "artist",
    "\U{A9}nam" := "title",
    "\U{A9}alb" := "album",
    "\U{A9}wrt" := "composer",
    "aART" := "albumartist",
    "\U{A9}grp" := "grouping",
    "\U{A9}day" := "date",
    "\U{A9}gen" := "genre",
    "\U{A9}lyr" := "lyrics",
    "\U{A9}too" := "encodedby",
    "\U{A9}lyr" := "lyrics",
    "cprt" := "copyright",
    "soal" := "albumsort",
    "soaa" := "albumartistsort",
    "soar" := "artistsort",
    "sonm" := "titlesort",
    "soco" := "composersort",
    "sosn" := "showsort",
    "tvsh" := "show",
    "purl" := "podcasturl"
  ]

  /** Boolean atoms: a flag, shown as "1" or "0" in the record. */
  const BoolTags: map<string, string> := map[
    "pcst" := "podcast",
    "cpil" := "compilation",
    "pgap" := "gapless"
  ]

  /** The mean and the namespace of iTunes free-form atom identifiers. */
  const ITunes := "----:com.apple.iTunes:"

  /** iTunes free-form atoms: UTF-8 byte strings. */
  const FreeformTags: map<string, string> := map[
    ITunes + "MusicBrainz Track Id" := "musicbrainz_trackid",
    ITunes + "MusicBrainz Artist Id" := "musicbrainz_artistid",
    ITunes + "MusicBrainz Album Id" := "musicbrainz_albumid",
    ITunes + "MusicBrainz Album Artist Id" := "musicbrainz_albumartistid",
    ITunes + "MusicIP PUID" := "musicip_puid",
    ITunes + "MusicBrainz Album Status" := "releasestatus",
    ITunes + "MusicBrainz Album Release Country" := "releasecountry",
    ITunes + "MusicBrainz Album Type" := "releasetype",
    ITunes + "MusicBrainz Disc Id" := "musicbrainz_discid",
    ITunes + "MusicBrainz TRM Id" := "musicbrainz_trmid"
  ]

  const Standard := TagTables(TextTags, BoolTags, FreeformTags)

  /** The tables of the MP4 format satisfy everything the translation relies on. */
  lemma StandardValid()
    ensures Standard.Valid()
  {
    TextTagsInjective();
    BoolTagsInjective();
    FreeformTagsInjective();
    TextBoolAtomsDisjoint();
    TextFreeformAtomsDisjoint();
    BoolFreeformAtomsDisjoint();
    SpecialAtomsOutsideTextTags();
    SpecialAtomsOutsideBoolTags();
    SpecialAtomsOutsideFreeformTags();
    TextBoolKeysDisjoint();
    TextFreeformKeysDisjoint();
    BoolFreeformKeysDisjoint();
    PairKeysOutsideTextTags();
    PairKeysOutsideBoolTags();
    PairKeysOutsideFreeformTags();
  }

  lemma TextTagsInjective()
    ensures Injective(TextTags)
  {
    var back := map[
      "artist" := "\U{A9}ART",
      "title" := "\U{A9}nam",
      "album" := "\U{A9}alb",
      "composer" := "\U{A9}wrt",
      "albumartist" := "aART",
      "grouping" := "\U{A9}grp",
      "date" := "\U{A9}day",
      "genre" := "\U{A9}gen",
      "lyrics" := "\U{A9}lyr",
      "encodedby" := "\U{A9}too",
      "copyright" := "cprt",
      "albumsort" := "soal",
      "albumartistsort" := "soaa",
      "artistsort" := "soar",
      "titlesort" := "sonm",
      "composersort" := "soco",
      "showsort" := "sosn",
      "show" := "tvsh",
      "podcasturl" := "purl"
    ];
    assert forall a :: a in TextTags ==> TextTags[a] in back && back[TextTags[a]] == a;
  }

  lemma BoolTagsInjective()
    ensures Injective(BoolTags)
  {
  }

  lemma FreeformTagsInjective()
    ensures Injective(FreeformTags)
  {
  }

  lemma TextBoolAtomsDisjoint()
    ensures TextTags.Keys !! BoolTags.Keys
  {
  }

  lemma TextFreeformAtomsDisjoint()
    ensures TextTags.Keys !! FreeformTags.Keys
  {
  }

  lemma BoolFreeformAtomsDisjoint()
    ensures BoolTags.Keys !! FreeformTags.Keys
  {
  }

  lemma SpecialAtomsOutsideTextTags()
    ensures SpecialAtoms !! TextTags.Keys
  {
  }

  lemma SpecialAtomsOutsideBoolTags()
    ensures SpecialAtoms !! BoolTags.Keys
  {
  }

  lemma SpecialAtomsOutsideFreeformTags()
    ensures SpecialAtoms !! FreeformTags.Keys
  {
  }

  lemma TextBoolKeysDisjoint()
    ensures TextTags.Values !! BoolTags.Values
  {
  }

  lemma TextFreeformKeysDisjoint()
    ensures TextTags.Values !! FreeformTags.Values
  {
  }

  lemma BoolFreeformKeysDisjoint()
    ensures BoolTags.Values !! FreeformTags.Values
  {
  }

  lemma PairKeysOutsideTextTags()
    ensures PairKeys !! TextTags.Values
  {
  }

  lemma PairKeysOutsideBoolTags()
    ensures PairKeys !! BoolTags.Values
  {
  }

  lemma PairKeysOutsideFreeformTags()
    ensures PairKeys !! FreeformTags.Values
  {
  }

  /** The reverse tables undo the forward ones in both directions. */
  lemma ReverseTablesInvert(tt: TagTables)
    requires tt.Valid()
    ensures forall a :: a in tt.text ==> tt.ReverseText()[tt.text[a]] == a
    ensures forall k :: k in tt.ReverseText() ==> tt.text[tt.ReverseText()[k]] == k
    ensures forall a :: a in tt.flags ==> tt.ReverseFlags()[tt.flags[a]] == a
    ensures forall k :: k in tt.ReverseFlags() ==> tt.flags[tt.ReverseFlags()[k]] == k
    ensures forall a :: a in tt.freeform ==> tt.ReverseFreeform()[tt.freeform[a]] == a
    ensures forall k :: k in tt.ReverseFreeform() ==> tt.freeform[tt.ReverseFreeform()[k]] == k
  {
  }

  /** How the import loop treats an atom. */
  datatype AtomKind =
    | TextAtom(key: string)
    | BoolAtom(key: string)
    | FreeformAtom(key: string)
    | TrackPair
    | DiscPair
    | Artwork
    | Unknown

  /** The chain of membership tests of the import loop, in the source's order.
      Because the tables are disjoint, each outcome holds exactly when its own
      test does, whatever order the tests are made in. */
  function Classify(tt: TagTables, id: string): (k: AtomKind)
    requires tt.Valid()
    ensures k.TextAtom? <==> id in tt.text
    ensures k.BoolAtom? <==> id in tt.flags
    ensures k.FreeformAtom? <==> id in tt.freeform
    ensures k.TrackPair? <==> id == TrackAtom
    ensures k.DiscPair? <==> id == DiscAtom
    ensures k.Artwork? <==> id == CoverAtom
    ensures k.TextAtom? ==> k.key == tt.text[id]
    ensures k.BoolAtom? ==> k.key == tt.flags[id]
    ensures k.FreeformAtom? ==> k.key == tt.freeform[id]
  {
    if id in tt.text then TextAtom(tt.text[id])
    else if id in tt.flags then BoolAtom(tt.flags[id])
    else if id in tt.freeform then FreeformAtom(tt.freeform[id])
    else if id == TrackAtom then TrackPair
    else if id == DiscAtom then DiscPair
    else if id == CoverAtom then Artwork
    else Unknown
  }

  /** The atom a reverse table names for a key is classified under that key,
      and a classified table atom is the one its key's reverse entry names. */
  lemma ClassifyAgreesWithReverse(tt: TagTables, id: string, key: string)
    requires tt.Valid()
    ensures Classify(tt, id) == TextAtom(key) <==> key in tt.ReverseText() && tt.ReverseText()[key] == id
    ensures Classify(tt, id) == BoolAtom(key) <==> key in tt.ReverseFlags() && tt.ReverseFlags()[key] == id
    ensures Classify(tt, id) == FreeformAtom(key) <==> key in tt.ReverseFreeform() && tt.ReverseFreeform()[key] == id
  {
    ReverseTablesInvert(tt);
  }

  /** A canonical key belongs to at most one reverse table, and the keys the
      number pairs fill belong to none. */
  lemma ReverseKeysDisjoint(tt: TagTables, key: string)
    requires tt.Valid()
    ensures key in tt.ReverseText() ==> key !in tt.ReverseFlags() && key !in tt.ReverseFreeform()
    ensures key in tt.ReverseFlags() ==> key !in tt.ReverseFreeform()
    ensures key in PairKeys ==> key !in tt.ReverseText() && key !in tt.ReverseFlags() && key !in tt.ReverseFreeform()
  {
  }

  /** The atoms of the three tables. */
  function TableAtoms(tt: TagTables): set<string> {
    tt.text.Keys + tt.flags.Keys + tt.freeform.Keys
  }

  /** The canonical key of a table atom, read from its forward table. */
  function AtomKey(tt: TagTables, a: string): string
    requires a in TableAtoms(tt)
  {
    if a in tt.text then tt.text[a] else if a in tt.flags then tt.flags[a] else tt.freeform[a]
  }

  /** No two table atoms share a canonical key. */
  lemma OneAtomPerKey(tt: TagTables, a: string, b: string)
    requires tt.Valid() && a in TableAtoms(tt) && b in TableAtoms(tt)
    requires AtomKey(tt, a) == AtomKey(tt, b)
    ensures a == b
  {
    if a in tt.text {
      assert tt.text[a] in tt.text.Values;
    } else if a in tt.flags {
      assert tt.flags[a] in tt.flags.Values;
    } else {
      assert tt.freeform[a] in tt.freeform.Values;
    }
    if b in tt.text {
      assert tt.text[b] in tt.text.Values;
    } else if b in tt.flags {
      assert tt.flags[b] in tt.flags.Values;
    } else {
      assert tt.freeform[b] in tt.freeform.Values;
    }
  }

  /** Whether a classified atom is one of the three tables'. */
  predicate IsTableAtom(k: AtomKind) {
    k.TextAtom? || k.BoolAtom? || k.FreeformAtom?
  }

  /** `supports_tag(name)`: the key is in one of the three reverse tables. That
      is exactly the keys some table atom is imported under; the keys of the
      number pairs are not among them. */
  function SupportsTag(tt: TagTables, name: string): (r: bool)
    requires tt.Valid()
    ensures r <==> exists a :: IsTableAtom(Classify(tt, a)) && Classify(tt, a).key == name
    ensures r <==> name in tt.text.Values || name in tt.flags.Values || name in tt.freeform.Values
    ensures name in PairKeys ==> !r
  {
    ReverseKeysDisjoint(tt, name);
    if name in tt.ReverseText() then
      ClassifyAgreesWithReverse(tt, tt.ReverseText()[name], name);
      true
    else if name in tt.ReverseFlags() then
      ClassifyAgreesWithReverse(tt, tt.ReverseFlags()[name], name);
      true
    else if name in tt.ReverseFreeform() then
      ClassifyAgreesWithReverse(tt, tt.ReverseFreeform()[name], name);
      true
    else
      assert forall a :: IsTableAtom(Classify(tt, a)) ==> Classify(tt, a).key != name by {
        forall a | IsTableAtom(Classify(tt, a))
          ensures Classify(tt, a).key != name
        {
          ClassifyAgreesWithReverse(tt, a, Classify(tt, a).key);
        }
      }
      false
  }
}
