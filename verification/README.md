# MP4 tag translation in Picard

This project models how Picard's MP4 file support (`MP4File` in
`picard/formats/mp4.py`) translates between the atoms of an MP4 container
and Picard's format-independent metadata record. It then proves properties
of that model in Dafny. The model covers four pieces:

- **The tag tables.** Three static tables map atom identifiers to canonical
  keys: text atoms such as `©ART` → `artist`, the flag atoms `pcst`, `cpil`
  and `pgap`, and the iTunes free-form atoms `----:com.apple.iTunes:…`.
  Each table has an inverse. The translation is defined over any `TagTables`
  value satisfying `TagTables.Valid`:
  - each table is injective;
  - the tables are disjoint on atoms and on keys;
  - `trkn`, `disk` and `covr` are in no table;
  - no table uses a number key.

  `Mp4Tables.Standard` holds the tables of the source, and
  `Mp4Tables.StandardValid` proves they satisfy `Valid`.
- **The import loop of `_load`.** It classifies every atom and fills a
  fresh record:
  - text atoms append their values;
  - flag atoms append "1" or "0";
  - free-form atoms append their byte strings, stripped of NULs and
    decoded;
  - `trkn` and `disk` overwrite their number and total keys with decimal
    strings;
  - `covr` appends images;
  - any other atom is ignored.

  `Mp4Load.Load` is proved equal to a reference record, `Mp4Load.Expected`.
  The reference is defined key by key, so the order in which the container
  lists its atoms does not matter.
- **The export loop of `_save`.** It may empty the container first. It
  then writes every record key that a reverse table carries, overwriting
  the old atom:
  - text keys as the list itself;
  - flag keys as "first value is `1`";
  - free-form keys UTF-8 encoded.

  Last, it writes `trkn` and `disk` from the number keys, with a total of 0
  when the total key is absent. Reading the first value of an empty flag
  list, or an `int()` of a non-number, raises in the source; here that is
  an `Err` (`Mp4Save.SaveError`). `Mp4Save.Save` succeeds exactly when
  neither can happen. The atoms it leaves, and their values, are
  characterised atom by atom.
- **`supports_tag`.** A key is supported exactly when one of the three
  reverse tables holds it, which is exactly when some table atom imports
  under that key. The number keys are never supported.

Two round-trip theorems connect the directions:

- `Mp4RoundTrip.LoadThenSave`: importing a container and exporting the
  record back over it, without clearing, gives the container unchanged.
  This holds whenever every free-form byte string of the container is
  restorable (`Mp4RoundTrip.Restorable`): it has no NUL byte at either end,
  and decoding it and encoding the text again gives the same bytes. A value
  such as `abc` followed by a NUL is not restorable: the import strips the
  NUL, so the export writes `abc` alone.
- `Mp4RoundTrip.SaveThenLoad`: exporting a canonical record into a cleared
  container and importing the result, with a decoder that inverts the
  encoder (`Utf8.InvertsEncode`), gives the record back. A record is
  canonical (`Mp4RoundTrip.Canonical`) when:
  - no key holds an empty value list;
  - it has only supported keys and number keys;
  - each flag holds the single value "0" or "1";
  - its free-form values have no NUL at either end;
  - each number key comes with its total, each a single value in the
    decimal form `str()` gives.

  `Mp4RoundTrip.SaveThenLoadKeeping` covers exporting without clearing.

A record holding a track number without a total does not round-trip: it is
written as `trkn (n, 0)` and read back with a total of `"0"`. The source
behaves the same way, so this is not claimed as a defect.

Modules, one per file:

- `Results` (results.dfy)
- `Sequences` (seqs.dfy): regrouping concatenations
- `ByteStrings` (bytes.dfy): NUL stripping
- `Utf8` (utf8.dfy): the encoder, and one decoder that inverts it
- `Decimal` (decimal.dfy): `str()` and `int()` of integers
- `Listings` (listings.dfy): dictionary iteration order
- `Mp4Tables` (mp4_tables.dfy)
- `Records` (records.dfy): the metadata record
- `Atoms` (atoms.dfy): the atom container
- `Mp4Load` (mp4_load.dfy)
- `Mp4Save` (mp4_save.dfy)
- `Mp4RoundTrip` (mp4_roundtrip.dfy)
- `Mp4Examples` (mp4_examples.dfy)

Two behaviours of the code are worth stating explicitly:

- Free-form values have NUL bytes stripped from **both** ends, because
  `strip("\x00")` does that, not only trailing padding.
- A number on export may have surrounding whitespace, a sign, and
  whitespace between the sign and the digits, because Python 2's `int()`
  accepts all three (`int("- 3") == -3`). A negative number is therefore
  not an error of the translation itself.

## Model

| member | source | states |
|---|---|---|
| Mp4Tables.Invert | picard/formats/mp4.py:51 | the inverse of an injective table has the table's keys as its domain, and it undoes the table in both directions |
| Mp4Tables.StandardValid | picard/formats/mp4.py:29-72 | the three tables of the source are each injective (the duplicate `©lyr` entry maps to the same key), pairwise disjoint on atoms and on keys, free of `trkn`/`disk`/`covr`, and use none of the number keys |
| Mp4Tables.ReverseTablesInvert | picard/formats/mp4.py:51-72 | for each table, `r[t[a]] == a` and `t[r[k]] == k` |
| Mp4Tables.Classify | picard/formats/mp4.py:79-96 | each outcome of the import's if-chain holds exactly when its own membership test does, so the order of the tests is irrelevant; a table atom carries its table's key |
| Mp4Tables.ClassifyAgreesWithReverse | picard/formats/mp4.py:29-72 | an atom is classified under key `k` exactly when `k`'s reverse entry in the same table names that atom |
| Mp4Tables.ReverseKeysDisjoint | picard/formats/mp4.py:51-72 | a key is in at most one reverse table, and the number keys are in none |
| Mp4Tables.OneAtomPerKey | picard/formats/mp4.py:29-72 | two table atoms with the same key are the same atom |
| Mp4Tables.SupportsTag | picard/formats/mp4.py:132-133 | `supports_tag(k)` holds exactly when some table atom imports under `k`, exactly when `k` is a value of one of the forward tables; it never holds for the number keys |
| Atoms.SourceAtom | picard/formats/mp4.py:78-93 | a key has a source atom exactly when it is supported or a number key; table keys come from their table atom, the track keys from `trkn`, the disc keys from `disk` |
| Atoms.SourceAtomIsUnique | picard/formats/mp4.py:78-93 | every key an atom fills has that atom, and only it, as its source |
| ByteStrings.StripNul | picard/formats/mp4.py:86 | the stripped value has no NUL at either end and is no longer than the input |
| ByteStrings.StripNulSplits | picard/formats/mp4.py:86 | every byte string is its stripped value with NUL runs before and after it, so stripping removes only padding |
| ByteStrings.StripNulOfClean | picard/formats/mp4.py:86 | a value without NULs at its ends is left as it is |
| ByteStrings.StripNulOfPadded | picard/formats/mp4.py:86 | any NUL padding around a value with NUL-free ends is removed exactly |
| ByteStrings.StripNulIdempotent | picard/formats/mp4.py:86 | stripping twice is stripping once |
| Utf8.EncodeChar | picard/formats/mp4.py:113 | one character encodes to one to four bytes, containing a zero byte exactly when the character is U+0000 |
| Utf8.Encode | picard/formats/mp4.py:113 | an encoding is between one and four bytes per character long |
| Utf8.EncodeAll | picard/formats/mp4.py:113 | the list comprehension encodes every value, position by position |
| Utf8.EncodeKeepsNulFreeEnds | picard/formats/mp4.py:113 | text with no NUL character at its ends encodes to bytes with no NUL at their ends, so stripping on import leaves it intact |
| Utf8.EncodeLast | picard/formats/mp4.py:113 | the encoding ends with the encoding of the last character |
| Utf8.DecodeFirstOfEncode | picard/formats/mp4.py:86 | a decoder reading the front of an encoding gets the encoded character back, and the length of its encoding, whatever follows |
| Utf8.DecodeOfEncode | picard/formats/mp4.py:86 | `Utf8.Decode` undoes the encoding of every text |
| Utf8.DecodeInvertsEncode | picard/formats/mp4.py:86 | a decoder meeting the round trips' assumption exists, so those theorems are not vacuous |
| Utf8.EncodeInjective | picard/formats/mp4.py:113 | different texts encode to different bytes |
| Utf8.EncodeCafe | picard/formats/mp4.py:113 | "café" encodes to `63 61 66 C3 A9` |
| Decimal.IntToString | picard/formats/mp4.py:89-93 | `str(n)` has no surrounding whitespace and is all digits exactly when `n` is not negative |
| Decimal.ParseInt | picard/formats/mp4.py:118-128 | `int(s)` fails on a string that contains no digit; which strings it accepts, and their values, is in `Decimal.ParseIntAcceptsLiterals` and `Decimal.ParseIntOfLiteral` |
| Decimal.StripSpaceSplits | picard/formats/mp4.py:118-128 | stripping before `int()` reads removes only whitespace, from the two ends |
| Decimal.StripSpaceOfPadded | picard/formats/mp4.py:118-128 | whitespace around text whose ends are not whitespace is removed exactly |
| Decimal.ParseIntOfLiteral | picard/formats/mp4.py:118-128 | every base-10 literal (whitespace, optional sign, optional whitespace, digits, whitespace) reads as its digits' value, negated after a minus |
| Decimal.ParseIntOnlyLiterals | picard/formats/mp4.py:118-128 | every string `int()` accepts splits as such a literal |
| Decimal.ParseIntAcceptsLiterals | picard/formats/mp4.py:118-128 | `int(s)` succeeds exactly when `s` is a literal, so no number is read off the front of longer text |
| Decimal.ParseIntRejectsTrailingText | picard/formats/mp4.py:118-121 | `int("3rd")` raises |
| Decimal.ParseIntRejectsInnerSpace | picard/formats/mp4.py:118-121 | `int("1 2")` raises |
| Decimal.ParseIntSpaceAfterSign | picard/formats/mp4.py:118-121 | whitespace between the sign and the digits is accepted: `int("- 3") == -3` |
| Decimal.ParseIntOfIntToString | picard/formats/mp4.py:89-93 | `int(str(n)) == n` for every integer, negative ones included |
| Decimal.ParseIntOfDigits | picard/formats/mp4.py:118-128 | a run of digits parses to its decimal value |
| Decimal.DigitsRoundTrip | picard/formats/mp4.py:89-90 | reading back the digits of a natural number gives the number |
| Records.Get | picard/formats/mp4.py:118-119 | `metadata[key]` is the key's first value, or "" when it has none |
| Records.Add | picard/formats/mp4.py:81 | `add` appends one value to its key, creating the key, and changes no other key and no artwork |
| Records.Set | picard/formats/mp4.py:89-90 | item assignment leaves the key with exactly the one value, whatever it held, and changes nothing else |
| Records.AddAll | picard/formats/mp4.py:80-81 | adding values one by one appends them in order, and creates the key only when there is a value |
| Records.AddArtwork | picard/formats/mp4.py:96 | adding an image appends it to the artwork and leaves every text key alone |
| Records.AddAllArtwork | picard/formats/mp4.py:95-96 | adding the images of a `covr` atom one by one appends them all, in order, and leaves every text key alone |
| Records.NormalRecordsEqual | picard/formats/mp4.py:77-96 | two records without empty lists that agree on every key's values and on the artwork are equal |
| Mp4Load.FlagText | picard/formats/mp4.py:83 | a flag reads as "1" exactly when set and as "0" exactly when not |
| Mp4Load.DecodeBlobs | picard/formats/mp4.py:85-87 | one value per byte string, in order, each stripped of NULs and then decoded |
| Mp4Load.ContributionElsewhere | picard/formats/mp4.py:78-96 | an atom gives no values to a key it does not feed |
| Mp4Load.ImportAtom | picard/formats/mp4.py:79-96 | one loop turn changes or adds only keys the atom feeds, keeps every other key's values, and leaves no value list empty; what it puts under each key is in `Mp4Load.ImportAtomValues` |
| Mp4Load.ImportAtomValues | picard/formats/mp4.py:79-93 | one loop turn appends an atom's values to its key, in order; `trkn`/`disk` replace both of their keys; every other key is unchanged |
| Mp4Load.ImportAtomShape | picard/formats/mp4.py:94-96 | only `covr` adds artwork, one image per value in order |
| Mp4Load.Import | picard/formats/mp4.py:78-96 | the loop leaves no value list empty, and every key it fills is fed by one of the atoms; what it yields in full is in `Mp4Load.ImportMatchesReference` |
| Mp4Load.Expected | picard/formats/mp4.py:78-96 | the reference record never holds an empty value list |
| Mp4Load.ValuesOfExpected | picard/formats/mp4.py:78-96 | each key of the reference record holds what its one source atom contributes, or nothing |
| Mp4Load.ExpectedValuesFrame | picard/formats/mp4.py:78-96 | adding an atom to the container changes only the keys that atom feeds |
| Mp4Load.ExpectedValuesNew | picard/formats/mp4.py:78-96 | a key is empty until its source atom arrives, then holds that atom's contribution |
| Mp4Load.ImportAtomExtendsFed | picard/formats/mp4.py:78-96 | one more loop turn agrees with the enlarged container's reference record on the keys the new atom feeds |
| Mp4Load.ImportAtomExtendsUnfed | picard/formats/mp4.py:78-96 | one more loop turn agrees with the enlarged container's reference record on every other key |
| Mp4Load.ImportAtomExtends | picard/formats/mp4.py:78-96 | importing a new atom into the reference record of a container gives the reference record of the container with that atom |
| Mp4Load.ImportIgnoresUnknown | picard/formats/mp4.py:78-96 | an atom of no table other than `trkn`/`disk`/`covr` changes nothing in the imported record |
| Mp4Load.MapOf | picard/formats/mp4.py:78 | the dictionary of an item list has exactly the listed identifiers; with distinct identifiers, each maps to its own item's value |
| Mp4Load.MapOfWellTyped | picard/formats/mp4.py:78 | items of the shapes the container library produces give a container of those shapes |
| Mp4Load.ImportMatchesReference | picard/formats/mp4.py:78-96 | the import loop over items with distinct identifiers, in any order, yields the reference record of their dictionary |
| Mp4Load.ItemsOf | picard/formats/mp4.py:78 | the items of a listing pair each listed identifier with its value, in order |
| Mp4Load.MapOfItems | picard/formats/mp4.py:78 | the items of a listed container have distinct identifiers and rebuild the container |
| Mp4Load.MapOfItemsKeys | picard/formats/mp4.py:78 | the items of a listed container name no atom outside it |
| Mp4Load.Load | picard/formats/mp4.py:77-96 | whatever order the container lists its atoms in, the import yields the reference record |
| Mp4Save.ExportValueMeaning | picard/formats/mp4.py:108-114 | a table atom is written as the text list itself, as a flag set exactly when the first value is "1", or as each value UTF-8 encoded in order; each in the value shape the import expects |
| Mp4Save.SaveEntry | picard/formats/mp4.py:107-114 | one export turn fails exactly on a flag key with no value; it writes nothing exactly for an unsupported key; otherwise it writes the key's one table atom with the exported value |
| Mp4Save.SaveEntries | picard/formats/mp4.py:107-114 | the loop's only error is a listed flag key with no value, and it never removes an atom; what it writes is in `Mp4Save.SaveEntriesMeaning` |
| Mp4Save.NoAtomForKey | picard/formats/mp4.py:107-114 | an unsupported key is the key of no table atom |
| Mp4Save.ExportedUnsupported | picard/formats/mp4.py:107-114 | an unsupported key changes neither whether the export can succeed nor what it writes |
| Mp4Save.FlagsFilledSupported | picard/formats/mp4.py:110-111 | a supported key that has a value whenever it is a flag keeps the flags readable |
| Mp4Save.ExportedSupported | picard/formats/mp4.py:107-114 | a supported key adds exactly its own table atom to what is written |
| Mp4Save.ExportedStep | picard/formats/mp4.py:107-114 | the atom of one export turn lies on top of the atoms of the remaining turns, and is none of them |
| Mp4Save.UnfilledFlag | picard/formats/mp4.py:110-111 | a flag key with no value makes the export of its key set fail |
| Mp4Save.SaveEntriesMeaning | picard/formats/mp4.py:107-114 | the export loop, in any key order, fails exactly when some flag key has no value; otherwise it writes exactly the atoms found through the forward tables over the old ones |
| Mp4Save.ParseField | picard/formats/mp4.py:118 | reading a number succeeds exactly when `int()` of its first value does; a failure names the key and its text |
| Mp4Save.NumberPair | picard/formats/mp4.py:116-128 | there is no number atom without a number key; with one, the atom is (number, total) or (number, 0); the export fails exactly when a number it reads does not parse, and the error names the number before the total |
| Mp4Save.Save | picard/formats/mp4.py:104-128 | the export succeeds exactly when every flag key has a value and every number it reads parses |
| Mp4Save.SaveShape | picard/formats/mp4.py:104-128 | a successful export is the old atoms (none when cleared), overwritten by the table atoms and then by `trkn` and `disk` |
| Mp4Save.SaveAtoms | picard/formats/mp4.py:104-128 | after export, an atom is present exactly when its key is in the record, when it is `trkn`/`disk` with its number present, or when it was there and the container was not cleared |
| Mp4Save.SaveTableAtoms | picard/formats/mp4.py:107-114 | every table atom whose key the record holds is overwritten: text with the values, a flag set exactly when the first value is "1", free-form with the values UTF-8 encoded |
| Mp4Save.SaveNumberPairs | picard/formats/mp4.py:116-128 | `trkn` is (track number, total tracks), or (track number, 0) without a total; `disk` the same with the disc keys |
| Mp4Save.SaveKeepsOthers | picard/formats/mp4.py:104-114 | without clearing, an atom that is not targeted, and is not `trkn`/`disk` written from the record, keeps its value |
| Mp4Save.SaveErrors | picard/formats/mp4.py:107-128 | a failed export reports an empty flag list exactly when some flag key of the record has no value; otherwise it reports the first number that does not parse, the track's before the disc's |
| Mp4Save.SaveOrderIrrelevant | picard/formats/mp4.py:107 | whether the export succeeds, what it writes when it does, and the kind of error it reports do not depend on the key order; the order only decides which of several empty flag lists an error names |
| Mp4Save.SaveRejectsNonNumbers | picard/formats/mp4.py:116-128 | a track or disc number that does not parse makes the export fail rather than write 0; with the flags filled, the error names the track number; with no numbers, only the flags decide |
| Mp4RoundTrip.TableAtomFeeds | picard/formats/mp4.py:79-87 | a table atom feeds exactly one key: the key of its table entry |
| Mp4RoundTrip.ImportedFrom | picard/formats/mp4.py:78-96 | after import, a key an atom feeds holds that atom's contribution, or nothing when the atom is absent |
| Mp4RoundTrip.ImportedTableKey | picard/formats/mp4.py:79-87 | a table key is in the imported record only when its atom was in the container |
| Mp4RoundTrip.ExportRestoresAtom | picard/formats/mp4.py:79-87 | exporting what a table atom contributed on import gives the atom back |
| Mp4RoundTrip.ImportedPair | picard/formats/mp4.py:88-93 | an imported number key comes with its total, both decimal forms of the container's pair |
| Mp4RoundTrip.ImportedPairReadable | picard/formats/mp4.py:88-128 | the numbers of an imported record parse back to the original pair |
| Mp4RoundTrip.ImportedRecordSaves | picard/formats/mp4.py:78-128 | an imported record always exports without error |
| Mp4RoundTrip.LoadThenSaveAt | picard/formats/mp4.py:78-128 | every atom present after export-over-the-container of an imported record has its original value |
| Mp4RoundTrip.LoadThenSave | picard/formats/mp4.py:78-128 | import then export without clearing gives the container back exactly |
| Mp4RoundTrip.CanonicalSaves | picard/formats/mp4.py:104-128 | a canonical record exports without error |
| Mp4RoundTrip.SavedWellTyped | picard/formats/mp4.py:104-128 | the export writes every atom in the value shape the import expects |
| Mp4RoundTrip.ReadBackTableAtom | picard/formats/mp4.py:79-87 | importing the atom written for a key of a canonical record gives the key's values back |
| Mp4RoundTrip.ReadBackTableKey | picard/formats/mp4.py:79-114 | after export and import, a table key holds what the canonical record held |
| Mp4RoundTrip.ReadBackNumber | picard/formats/mp4.py:89-93 | a number in decimal form is written back as it was read |
| Mp4RoundTrip.PairAtomWritten | picard/formats/mp4.py:116-128 | `trkn`/`disk` is written exactly when its number is present, and is absent after a clear otherwise |
| Mp4RoundTrip.ReadBackPairAtom | picard/formats/mp4.py:88-93 | a number pair written from a canonical record imports as the record's two keys |
| Mp4RoundTrip.ReadBackPair | picard/formats/mp4.py:88-128 | after export and import, the number and total keys hold what the canonical record held |
| Mp4RoundTrip.ReadBackKey | picard/formats/mp4.py:78-128 | after export and import, every key of a canonical record, and after a clear every key at all, holds what the record held |
| Mp4RoundTrip.SaveThenLoad | picard/formats/mp4.py:78-128 | export into a cleared container then import gives the canonical record back, without artwork |
| Mp4RoundTrip.SaveThenLoadKeeping | picard/formats/mp4.py:78-128 | export without clearing then import gives every key of the canonical record back, and keeps the container's artwork |
| Mp4Examples.SupportsArtist | picard/formats/mp4.py:132-133 | `supports_tag("artist")` holds |
| Mp4Examples.SupportsCompilation | picard/formats/mp4.py:132-133 | `supports_tag("compilation")` holds |
| Mp4Examples.ArtworkUnsupported | picard/formats/mp4.py:132-133 | `supports_tag("~artwork")` does not hold |
| Mp4Examples.NumberKeysUnsupported | picard/formats/mp4.py:132-133 | `supports_tag` holds for none of the four number keys |
| Mp4Examples.ClassifyArtist | picard/formats/mp4.py:79-81 | `©ART` imports under `artist` |
| Mp4Examples.ImportTrackPair | picard/formats/mp4.py:88-90 | `trkn (3, 12)` imports as track "3" of "12" |
| Mp4Examples.ExportTrackWithoutTotal | picard/formats/mp4.py:116-121 | a record holding only track number "3" exports as `trkn (3, 0)` |
| Mp4Examples.ExportRejectsNonNumber | picard/formats/mp4.py:116-121 | track number "three" makes the export fail, naming the key and the text |
| Mp4Examples.TrackMinusThreeNumbers | picard/formats/mp4.py:116-121 | "-3" and "12" are the decimal forms of the numbers `int()` reads from them |
| Mp4Examples.TrackMinusThreeCanonical | picard/formats/mp4.py:78-128 | the record holding track "-3" of "12" is canonical under any valid tables |
| Mp4Examples.NegativeTrackRoundTrips | picard/formats/mp4.py:78-128 | track "-3" of "12" exports into a cleared container and reads back unchanged with `Utf8.Decode` |
| Mp4Examples.CafeImports | picard/formats/mp4.py:84-87 | a free-form "café" stored with NUL padding imports as "café" |

## Left out

- Parsing and writing the file, `file.save()` and `encode_filename` (picard/formats/mp4.py:75, 102, 130). These are file I/O in a foreign library. The container is an in-memory map from atom identifier to a parsed value (`Atoms.Tags`).
- `self._info(file)` (picard/formats/mp4.py:99). It reads stream information from the container library.
- `self.metadata.update(metadata)` (picard/formats/mp4.py:98) and the `Metadata` class itself are not part of this model. The import yields a fresh record. `Records` models only what the two loops use: `add`, item assignment, item reading, membership and `rawitems`.
- Records.Get: reading `metadata[key]` is taken to give the key's first value, or "" when it has none. The `Metadata` class that defines this is not part of this model.
- `Records.Metadata` keeps the `~artwork` entries in their own list. The export never reads them, because `~artwork` is in no reverse table. Each image stands for the pair `(None, image)`, and its bytes are opaque.
- The UTF-8 decoder with replacement (picard/formats/mp4.py:86) is a function parameter. `Mp4RoundTrip.SaveThenLoad` and `Mp4RoundTrip.SaveThenLoadKeeping` assume that it inverts the encoder (`Utf8.InvertsEncode`). `Mp4RoundTrip.LoadThenSave` assumes instead that re-encoding what it decodes from the container's free-form values gives back the same bytes (`Mp4RoundTrip.Restorable`). `Utf8.Decode` is one decoder that meets the first assumption. Its handling of malformed input (one U+FFFD per byte that starts no well-formed sequence) is not claimed to match Python 2's codec, and Python 2's acceptance of encoded surrogates is not modelled, because a Dafny `char` is a Unicode scalar value.
- Utf8.Encode: the encoder is modelled for every `char`. It does not cover Python 2's handling of surrogates or of byte strings passed where text is expected.
- The configuration lookup (picard/formats/mp4.py:104) is the boolean parameter `clear` of `Mp4Save.Save`.
- The iteration order of `file.tags.items()` and `metadata.rawitems()` is an explicit listing parameter. The import does not depend on it (`Mp4Load.Load`). The export's success, what it writes, and the kind of error it reports do not depend on it either (`Mp4Save.SaveOrderIrrelevant`); it only decides which of several empty flag lists an error names.
- Decimal.ParseInt: `int()` is modelled for ASCII digits, ASCII whitespace (around the number and after the sign) and one optional sign. Python 2 also accepts other Unicode digits and whitespace; these are left out.
- `trkn` and `disk` hold a single `Pair`. The source reads only the first pair of the atom's list (lines 89-93). The model assumes the container hands over at least one pair, and ignores any pairs after the first. An empty list, which would raise at line 89, is not modelled.
- Range checks on the numbers written to `trkn`/`disk` are assumed to belong to the container library's writer, which is not part of this model. `Mp4Save.Save` therefore accepts any integer.
- Mp4Tables.Invert: requires the table to be injective. The dictionary comprehension of the source keeps the last atom for a repeated key, but every table of the source is injective (`Mp4Tables.StandardValid`), so that case never arises.
- The `EXTENSIONS` and `NAME` class attributes (picard/formats/mp4.py:26-27) are not part of the translation.
