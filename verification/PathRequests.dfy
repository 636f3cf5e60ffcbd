/** What a path request brings about (internal/discovery/announce.go:368-404): the node that answers
    and the node that hears the answer together. */
module PathRequests {
  import opened Basics
  import opened PathModel
  import opened PathProtocol

  /** A fresh request is answered exactly by the destination and by nodes that know a path; a repeat
      by nobody, and it changes nothing. */
  lemma {:induction false} AnsweredIff(u: Node, st: State, d: Node, nonce: nat, own: Announce, now: int, st': State,
                                       answer: Option<Announce>)
    requires (st', answer) == HandleRequest(u, st, d, nonce, own, now)
    ensures !Recent(st.seen, RequestKey(d, nonce), now, DEDUP_TTL) ==> (answer.Some? <==> d == u || d in st.table)
    ensures Recent(st.seen, RequestKey(d, nonce), now, DEDUP_TTL) ==> answer == None && st' == st
    ensures st'.table == st.table && Recent(st'.seen, RequestKey(d, nonce), now, DEDUP_TTL)
    ensures forall x, k | Recent(st.seen, AnnounceKey(x, k), now, DEDUP_TTL) ::
              Recent(st'.seen, AnnounceKey(x, k), now, DEDUP_TTL)
    ensures forall x, k | AnnounceKey(x, k) in st'.seen :: AnnounceKey(x, k) in st.seen
  {
  }

  /** A node with room that knew no path to d and hears the answer of u then reaches d through u: in
      one hop if u is d, else in one more than u, of the generation u knew, as long as hop counts
      stay below 255. */
  lemma {:induction false} AnswerTeaches(u: Node, st: State, d: Node, nonce: nat, own: Announce, now: int, st': State,
                                         answer: Option<Announce>, v: Node, transport: bool, sv: State, at: int,
                                         sv': State, forwarded: Option<Announce>)
    requires (st', answer) == HandleRequest(u, st, d, nonce, own, now) && answer.Some? && IsOwn(u, own)
    requires d in st.table ==> st.table[d].ann.dest == d && st.table[d].ann.ts == st.table[d].originTs
    requires d in st.table ==> st.table[d].hops < 255
    requires HandleAnnounce(v, transport, sv, u, answer.value, at, sv', forwarded)
    requires v != d && d !in sv.table && |sv.table| < MAX_PATHS
    requires !Recent(sv.seen, AnnounceKey(d, answer.value.nonce), at, DEDUP_TTL)
    ensures d in sv'.table && sv'.table[d].nextHop == u
    ensures u == d ==> sv'.table[d].hops == 0 && sv'.table[d].originTs == own.ts
    ensures u != d ==> sv'.table[d].hops == st.table[d].hops + 1 && sv'.table[d].originTs == st.table[d].originTs
  {
    LearnsFirst(v, transport, sv, u, answer.value, at, sv', forwarded);
  }

  lemma LearnsFirst(v: Node, transport: bool, sv: State, from: Node, a: Announce, at: int, sv': State,
                    forwarded: Option<Announce>)
    requires HandleAnnounce(v, transport, sv, from, a, at, sv', forwarded)
    requires v != a.dest && a.dest !in sv.table && |sv.table| < MAX_PATHS
    requires !Recent(sv.seen, AnnounceKey(a.dest, a.nonce), at, DEDUP_TTL)
    ensures sv'.table == sv.table[a.dest := Learned(from, a, at)]
  {
    var t := sv.table[a.dest := Learned(from, a, at)];
    assert t.Keys == sv.table.Keys + {a.dest};
    assert |t| == |t.Keys| && |sv.table| == |sv.table.Keys|;
  }
}
