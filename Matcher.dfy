/**
 * Identifying a card: scanning a set's catalog for the record whose stored hash is nearest,
 * in Hamming distance, to the fingerprint of the card seen by the camera.
 */
module Matcher {
  import opened Wrappers
  import opened Fingerprints
  import HexCodec
  import opened CardSet

  /**
   * What the scan ends with. `Matched` carries the final `min_dist` and `matched_card`, which
   * stay at the sentinels -1 and "" for an empty catalog. `MalformedHash` ends the scan when the
   * stored hash at `index` is not 16 ASCII hexadecimal digits; the library raises on most such
   * text, and the lenient forms it also reads are not modelled.
   */
  datatype Outcome = Matched(minDist: int, matchedCard: string) | MalformedHash(index: nat)

  /** The first `n` records of the catalog hold readable hashes. */
  predicate WellFormedUpTo(cardData: seq<CardRecord>, n: nat)
    requires n <= |cardData|
  {
    forall j :: 0 <= j < n ==> HexCodec.Decode(cardData[j].hash).Some?
  }

  predicate WellFormed(cardData: seq<CardRecord>) {
    WellFormedUpTo(cardData, |cardData|)
  }

  /** `index` is the first record whose hash cannot be read. */
  predicate FirstMalformed(cardData: seq<CardRecord>, index: nat) {
    && index < |cardData|
    && HexCodec.Decode(cardData[index].hash).None?
    && WellFormedUpTo(cardData, index)
  }

  /** Hamming distance from the query to a record whose hash is readable. */
  function Distance(query: Fingerprint, card: CardRecord): nat
    requires HexCodec.Decode(card.hash).Some?
  {
    Hamming(query, HexCodec.Decode(card.hash).value)
  }

  /**
   * Among the first `n` records, `k` is at the smallest distance from the query, and every
   * record before `k` is strictly farther: `k` is the first of the nearest.
   */
  predicate IsFirstNearestAmong(query: Fingerprint, cardData: seq<CardRecord>, n: nat, k: nat)
    requires n <= |cardData| && WellFormedUpTo(cardData, n)
  {
    && k < n
    && (forall j :: 0 <= j < n ==> Distance(query, cardData[k]) <= Distance(query, cardData[j]))
    && (forall j :: 0 <= j < k ==> Distance(query, cardData[k]) < Distance(query, cardData[j]))
  }

  predicate IsFirstNearest(query: Fingerprint, cardData: seq<CardRecord>, k: nat)
    requires WellFormed(cardData)
  {
    IsFirstNearestAmong(query, cardData, |cardData|, k)
  }

  /**
   * The scan of the catalog. A record replaces the current best only when it is strictly
   * nearer, so among records at the minimum distance the first one wins. An unreadable
   * hash stops the scan with an error.
   */
  method IdentifyCard(query: Fingerprint, cardData: seq<CardRecord>) returns (r: Outcome)
    ensures r.MalformedHash? <==> !WellFormed(cardData)
    ensures r.MalformedHash? ==> FirstMalformed(cardData, r.index)
    ensures r.Matched? && |cardData| == 0 ==> r.minDist == -1 && r.matchedCard == ""
    ensures r.Matched? && |cardData| > 0 ==>
      && WellFormed(cardData)
      && 0 <= r.minDist <= HashBits
      && exists k: nat :: IsFirstNearest(query, cardData, k)
           && r.minDist == Distance(query, cardData[k])
           && r.matchedCard == cardData[k].cardId
  {
    var minDist: int := -1;
    var matchedCard := "";
    ghost var best := 0;
    var i := 0;
    while i < |cardData|
      invariant 0 <= i <= |cardData|
      invariant WellFormedUpTo(cardData, i)
      invariant i == 0 ==> minDist == -1 && matchedCard == ""
      invariant i > 0 ==>
        && IsFirstNearestAmong(query, cardData, i, best)
        && minDist == Distance(query, cardData[best])
        && matchedCard == cardData[best].cardId
    {
      var cardHash := HexCodec.Decode(cardData[i].hash);
      if cardHash.None? {
        return MalformedHash(i);
      }
      var dist := Hamming(query, cardHash.value);
      if minDist == -1 || dist < minDist {
        minDist := dist;
        matchedCard := cardData[i].cardId;
        best := i;
      }
      i := i + 1;
    }
    r := Matched(minDist, matchedCard);
  }

  /** The first nearest record is unique, so the scan's answer is determined by the catalog. */
  lemma FirstNearestUnique(query: Fingerprint, cardData: seq<CardRecord>, k1: nat, k2: nat)
    requires WellFormed(cardData)
    requires IsFirstNearest(query, cardData, k1) && IsFirstNearest(query, cardData, k2)
    ensures k1 == k2
  {
    assert Distance(query, cardData[k1]) == Distance(query, cardData[k2]);
  }

  /**
   * Matching against a freshly compiled catalog never meets an unreadable hash, and compares
   * the query with exactly the fingerprints the catalog was compiled from.
   */
  lemma CompiledCatalogMatchesImages(query: Fingerprint, records: seq<CardRecord>, images: seq<CardImage>)
    requires CompiledFrom(records, images)
    ensures WellFormed(records)
    ensures forall j :: 0 <= j < |records| ==> Distance(query, records[j]) == Hamming(query, images[j].hash)
  {
    CompiledHashesDecode(records, images);
  }
}
