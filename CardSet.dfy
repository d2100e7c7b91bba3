/**
 * Building a card set's catalog: one record per reference image, holding the card id taken
 * from the image's file name and the image's fingerprint written as hexadecimal text.
 */
module CardSet {
  import opened Wrappers
  import opened Fingerprints
  import HexCodec

  /** One record of a set's catalog file: `card_id` and the `hash` text. */
  datatype CardRecord = CardRecord(cardId: string, hash: string)

  /** A reference image in the set's folder: its file name and the pHash computed from its pixels. */
  datatype CardImage = CardImage(fileName: string, hash: Fingerprint)

  /** Position of the last '.' in `s`, if there is one. */
  function LastDot(s: string): (r: Option<nat>)
    ensures r.None? <==> '.' !in s
    ensures r.Some? ==> r.value < |s| && s[r.value] == '.' && '.' !in s[r.value + 1..]
    decreases |s|
  {
    if |s| == 0 then None
    else if s[|s| - 1] == '.' then Some(|s| - 1)
    else
      var r := LastDot(s[..|s| - 1]);
      assert r.Some? ==> s[r.value + 1..] == s[..|s| - 1][r.value + 1..] + [s[|s| - 1]];
      r
  }

  /**
   * The card id of an image file: the name with its last '.' and everything after it removed
   * (`rsplit('.', 1)[0]`); a name without a '.' is its own id.
   */
  function CardId(fileName: string): (id: string)
    ensures '.' !in fileName ==> id == fileName
    ensures '.' in fileName ==>
      && |id| < |fileName|
      && id == fileName[..|id|]
      && fileName[|id|] == '.'
      && '.' !in fileName[|id| + 1..]
  {
    match LastDot(fileName)
    case None => fileName
    case Some(k) => fileName[..k]
  }

  /**
   * The card id survives being used as a file name: an image saved as `<id>.<ext>`, with no '.'
   * in the extension, yields `id` back, even when `id` itself contains dots.
   */
  lemma CardIdOfSavedImage(id: string, ext: string)
    requires '.' !in ext
    ensures CardId(id + "." + ext) == id
  {
    var name := id + "." + ext;
    assert name[|id|] == '.';
    assert name[|id| + 1..] == ext;
    assert name[..|id|] == id;
  }

  /** `records` is what compiling the set's `images` writes: one record per image, in order. */
  predicate CompiledFrom(records: seq<CardRecord>, images: seq<CardImage>) {
    && |records| == |images|
    && forall j :: 0 <= j < |images| ==>
         records[j] == CardRecord(CardId(images[j].fileName), HexCodec.Encode(images[j].hash))
  }

  /** Builds the catalog of a card set from its reference images, in folder-listing order. */
  method CompileCardSetHashes(images: seq<CardImage>) returns (records: seq<CardRecord>)
    ensures CompiledFrom(records, images)
  {
    records := [];
    for j := 0 to |images|
      invariant CompiledFrom(records, images[..j])
    {
      records := records + [CardRecord(CardId(images[j].fileName), HexCodec.Encode(images[j].hash))];
    }
    assert images[..|images|] == images;
  }

  /** Every hash written by the compiler reads back as the fingerprint it was written from. */
  lemma CompiledHashesDecode(records: seq<CardRecord>, images: seq<CardImage>)
    requires CompiledFrom(records, images)
    ensures forall j :: 0 <= j < |records| ==> HexCodec.Decode(records[j].hash) == Some(images[j].hash)
  {
    forall j | 0 <= j < |records|
      ensures HexCodec.Decode(records[j].hash) == Some(images[j].hash)
    {
      HexCodec.DecodeEncode(images[j].hash);
    }
  }
}
