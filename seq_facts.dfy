/** Small facts about sequences that the proofs of several modules use. */
module SeqFacts {

  /** Concatenation regroups. */
  lemma Regroup<T>(a: seq<T>, b: seq<T>, c: seq<T>)
    ensures (a + b) + c == a + (b + c)
  {
  }

  /** A non-empty sequence is its head followed by its tail. */
  lemma HeadTail<T>(s: seq<T>)
    requires s != []
    ensures [s[0]] + s[1..] == s
  {
  }

  /** What a prefix holds its extension holds. */
  lemma PrefixMember<T>(p: seq<T>, q: seq<T>, x: T)
    requires p <= q && x in p
    ensures x in q
  {
    var k :| 0 <= k < |p| && p[k] == x;
    assert q[k] == x;
  }
}
