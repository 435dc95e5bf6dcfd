/** `isRelated`: two records are related when their `people` key lists share a key. */
module Relation {
  import opened Gallery

  /** `b.some(p => setA.has(p))` */
  function SomeIn(b: seq<string>, setA: set<string>): (r: bool)
    ensures r <==> exists i :: 0 <= i < |b| && b[i] in setA
  {
    if |b| == 0 then false else b[0] in setA || SomeIn(b[1..], setA)
  }

  /**
   * The source first rejects an empty key list on either side, then tests
   * membership; the result is exactly "the key lists intersect".
   */
  function IsRelated(a: Record, b: Record): (r: bool)
    ensures r <==> exists k :: k in Keys(a.people) && k in Keys(b.people)
    ensures (|Keys(a.people)| == 0 || |Keys(b.people)| == 0) ==> !r
  {
    var ka := Keys(a.people);
    var kb := Keys(b.people);
    if |ka| == 0 || |kb| == 0 then false
    else
      var setA := set k | k in ka;
      var r := SomeIn(kb, setA);
      assert r ==> exists k :: k in ka && k in kb;
      assert (exists k :: k in ka && k in kb) ==> r by {
        if k :| k in ka && k in kb {
          var i :| 0 <= i < |kb| && kb[i] == k;
        }
      }
      r
  }

  lemma IsRelatedSymmetric(a: Record, b: Record)
    ensures IsRelated(a, b) == IsRelated(b, a)
  {
  }

  /** A record without people is related to nothing. */
  lemma MissingIsUnrelated(a: Record, b: Record)
    requires a.people.Missing?
    ensures !IsRelated(a, b) && !IsRelated(b, a)
  {
  }

  /**
   * The loader stores `people` as an array, so the keys compared are array
   * indices: any two records with at least one person each are related,
   * whoever the people are.
   */
  lemma NonEmptyListsAreRelated(a: Record, b: Record)
    requires a.people.List? && |a.people.names| > 0
    requires b.people.List? && |b.people.names| > 0
    ensures IsRelated(a, b)
  {
    assert Keys(a.people)[0] == IndexString(0);
    assert Keys(b.people)[0] == IndexString(0);
  }

  /** With object-shaped `people`, relatedness is a shared name. */
  lemma ObjectsRelatedIffSharedName(a: Record, b: Record)
    requires a.people.Object? && b.people.Object?
    ensures IsRelated(a, b) <==> exists n :: n in a.people.keys && n in b.people.keys
  {
  }
}
