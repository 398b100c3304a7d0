/** The format-agnostic metadata record the tags are translated into: a
    multi-valued map from canonical key to text values, plus the artwork
    images stored under the `~artwork` key. */
module Records {
  import opened ByteStrings

  /** `tags` holds every text-valued key with its values in insertion order;
      `artwork` holds the image bytes added under `~artwork`, in order (the
      record stores each as a pair whose first half is always empty). */
  datatype Metadata = Metadata(tags: map<string, seq<string>>, artwork: seq<Bytes>)

  const Empty := Metadata(map[], [])

  /** All values of a key, none when the key is absent. */
  function Values(m: Metadata, key: string): seq<string> {
    if key in m.tags then m.tags[key] else []
  }

  /** `key in metadata`. */
  predicate Has(m: Metadata, key: string) {
    key in m.tags
  }

  /** `metadata[key]`: the first value, or the empty string when there is none. */
  function Get(m: Metadata, key: string): (v: string)
    ensures |Values(m, key)| > 0 ==> v == Values(m, key)[0]
    ensures |Values(m, key)| == 0 ==> v == ""
  {
    if key in m.tags && |m.tags[key]| > 0 then m.tags[key][0] else ""
  }

  /** `metadata.add(key, value)`: appends one value to the key, creating it. */
  function Add(m: Metadata, key: string, value: string): (r: Metadata)
    ensures Values(r, key) == Values(m, key) + [value]
    ensures r.tags.Keys == m.tags.Keys + {key}
    ensures forall k :: k in m.tags && k != key ==> r.tags[k] == m.tags[k]
    ensures r.artwork == m.artwork
  {
    Metadata(m.tags[key := Values(m, key) + [value]], m.artwork)
  }

  /** `metadata[key] = value`: the key holds this one value, whatever it held. */
  function Set(m: Metadata, key: string, value: string): (r: Metadata)
    ensures Values(r, key) == [value]
    ensures r.tags.Keys == m.tags.Keys + {key}
    ensures forall k :: k in m.tags && k != key ==> r.tags[k] == m.tags[k]
    ensures r.artwork == m.artwork
  {
    Metadata(m.tags[key := [value]], m.artwork)
  }

  /** `for value in values: metadata.add(key, value)`: appends every value, in
      order; the key is created only when there is at least one value. */
  function AddAll(m: Metadata, key: string, values: seq<string>): (r: Metadata)
    ensures Values(r, key) == Values(m, key) + values
    ensures r.tags.Keys == if |values| == 0 then m.tags.Keys else m.tags.Keys + {key}
    ensures forall k :: k in m.tags && k != key ==> r.tags[k] == m.tags[k]
    ensures r.artwork == m.artwork
    decreases |values|
  {
    if |values| == 0 then
      m
    else
      var r := AddAll(Add(m, key, values[0]), key, values[1..]);
      assert [values[0]] + values[1..] == values;
      r
  }

  /** `metadata.add("~artwork", (None, image))`. */
  function AddArtwork(m: Metadata, image: Bytes): (r: Metadata)
    ensures r.artwork == m.artwork + [image]
    ensures r.tags == m.tags
  {
    Metadata(m.tags, m.artwork + [image])
  }

  /** `for value in values: metadata.add("~artwork", (None, value))`: appends
      every image, in order. */
  function AddAllArtwork(m: Metadata, images: seq<Bytes>): (r: Metadata)
    ensures r.artwork == m.artwork + images
    ensures r.tags == m.tags
    decreases |images|
  {
    if |images| == 0 then
      m
    else
      var r := AddAllArtwork(AddArtwork(m, images[0]), images[1..]);
      assert [images[0]] + images[1..] == images;
      r
  }

  /** Every key the record holds has at least one value: the shape `add` and
      item assignment keep. */
  predicate Normal(m: Metadata) {
    forall k :: k in m.tags ==> |m.tags[k]| > 0
  }

  /** Two normal records that agree on the values of every key and on the
      artwork are the same record. */
  lemma NormalRecordsEqual(a: Metadata, b: Metadata)
    requires Normal(a) && Normal(b)
    requires forall k :: Values(a, k) == Values(b, k)
    requires a.artwork == b.artwork
    ensures a == b
  {
    assert a.tags.Keys == b.tags.Keys by {
      forall k | k in a.tags
        ensures k in b.tags
      {
        assert |Values(b, k)| > 0;
      }
      forall k | k in b.tags
        ensures k in a.tags
      {
        assert |Values(a, k)| > 0;
      }
    }
    assert a.tags == b.tags by {
      forall k | k in a.tags
        ensures a.tags[k] == b.tags[k]
      {
        assert Values(a, k) == Values(b, k);
      }
    }
  }
}
