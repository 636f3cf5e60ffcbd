/** The assumptions on the codec are satisfiable, also for shards that travel in several pieces:
    a replicating code, and a sealer that writes the attempt next to every byte and refuses to
    open bytes of different attempts. */
module StreamWitness {
  import opened Basics
  import opened StreamModel

  /** x with the attempt of each position written after it. */
  function Tagged(x: Bytes, ts: seq<nat>): Bytes
    requires |x| == |ts|
  {
    if x == [] then [] else [x[0], ts[0]] + Tagged(x[1..], ts[1..])
  }

  function Same(n: nat, t: nat): seq<nat> { seq(n, _ => t) }

  function Seal(x: Bytes, i: nat, t: nat): Bytes { Tagged(x, Same(|x|, t)) }

  function Open(c: Bytes, i: nat): Option<Bytes> {
    if c == [] then Some([])
    else if |c| % 2 == 1 || (|c| > 2 && c[1] != c[3]) then None
    else
      var rest := Open(c[2..], i);
      if rest.None? then None else Some([c[0]] + rest.value)
  }

  lemma {:induction false} OpenTagged(x: Bytes, i: nat, ts: seq<nat>)
    requires |x| == |ts|
    ensures |Tagged(x, ts)| == 2 * |x|
    ensures Open(Tagged(x, ts), i) == if OneAttempt(ts) then Some(x) else None
  {
    if x != [] {
      OpenTagged(x[1..], i, ts[1..]);
      var c, rest := Tagged(x, ts), Tagged(x[1..], ts[1..]);
      assert c[2..] == rest;
      assert [x[0]] + x[1..] == x;
      if |x| > 1 { assert rest[1] == ts[1]; }
      OneAttemptTail(ts);
    }
  }

  lemma OneAttemptTail(ts: seq<nat>)
    requires ts != []
    ensures OneAttempt(ts) <==> OneAttempt(ts[1..]) && (|ts| > 1 ==> ts[0] == ts[1])
  {
    if OneAttempt(ts[1..]) && (|ts| > 1 ==> ts[0] == ts[1]) {
      assert forall j :: 1 <= j < |ts| ==> ts[j] == ts[1..][j - 1];
    }
    if OneAttempt(ts) { assert forall j :: 0 <= j < |ts[1..]| ==> ts[1..][j] == ts[j + 1]; }
  }

  /** Cut into pieces of two, a tagged text is one piece a byte. */
  lemma {:induction false} CutTagged(x: Bytes, ts: seq<nat>)
    requires |x| == |ts| && x != []
    ensures |Cut(Tagged(x, ts), 2)| == |x|
    ensures forall j :: 0 <= j < |x| ==> Cut(Tagged(x, ts), 2)[j] == [x[j], ts[j]]
  {
    OpenTagged(x, 0, ts);
    if |x| == 1 {
      assert Tagged(x, ts) == [x[0], ts[0]];
    } else {
      CutTagged(x[1..], ts[1..]);
      assert Tagged(x, ts)[2..] == Tagged(x[1..], ts[1..]) && Tagged(x, ts)[..2] == [x[0], ts[0]];
      OpenTagged(x[1..], 0, ts[1..]);
    }
  }

  lemma {:induction false} JoinTagged(x: Bytes, ts: seq<nat>, pieces: seq<Bytes>)
    requires |x| == |ts| == |pieces| && forall j :: 0 <= j < |x| ==> pieces[j] == [x[j], ts[j]]
    ensures Concat(pieces) == Tagged(x, ts)
  {
    if x != [] {
      JoinTagged(x[1..], ts[1..], pieces[1..]);
      ConcatOne(pieces[0]);
      ConcatPlus([pieces[0]], pieces[1..]);
      assert pieces == [pieces[0]] + pieces[1..];
    }
  }

  function Replicate(n: nat, block: Bytes): seq<Bytes> { seq(n, _ => block) }

  ghost function AnyShard(parts: map<nat, Bytes>, len: nat): Option<Bytes> {
    if parts == map[] then None
    else
      var i :| i in parts;
      if len <= |parts[i]| then Some(parts[i][..len]) else None
  }

  /** Every choice of positive shard counts has a sound codec with two-byte pieces. */
  lemma {:induction false} SoundCodecExists(k: nat, m: nat) returns (c: Codec)
    requires k > 0 && m > 0
    ensures c.Sound() && c.k == k && c.m == m
    ensures forall x: Bytes, i: nat, t: nat :: |x| > 1 ==> |c.Pieces(x, i, t)| > 1
  {
    c := Codec(k, m, 2, block => Replicate(k + m, block), (parts, len) => AnyShard(parts, len), Seal, Open);
    forall x: Bytes, i: nat, t: nat
      ensures c.open(c.seal(x, i, t), i) == Some(x) && |c.seal(x, i, t)| == 2 * |x|
      ensures |c.Pieces(x, i, t)| == if x == [] then 1 else |x|
      ensures forall j :: 0 <= j < |x| ==> c.Pieces(x, i, t)[j] == [x[j], t]
    {
      OpenTagged(x, i, Same(|x|, t));
      if x != [] { CutTagged(x, Same(|x|, t)); }
    }
    forall x: Bytes, i: nat, ts: seq<nat> | ts != [] && |ts| == |c.Pieces(x, i, ts[0])| && !OneAttempt(ts)
      ensures c.open(Concat(c.Mixed(x, i, ts)), i) == None
    {
      assert |ts| == |x|;
      JoinTagged(x, ts, c.Mixed(x, i, ts));
      OpenTagged(x, i, ts);
    }
    assert c.Aead();
    ReplicatesSoundly(c);
  }

  lemma ReplicatesSoundly(c: Codec)
    requires c.k > 0 && c.m > 0 && c.enc == (block => Replicate(c.k + c.m, block))
    requires c.dec == ((parts, len) => AnyShard(parts, len))
    ensures c.ErasureCode()
  {
    forall block: Bytes, parts: map<nat, Bytes>, len: nat
      | |block| >= c.k && len <= |block| && |parts| >= c.k && c.ShardsOf(parts, block)
      ensures c.dec(parts, len) == Some(block[..len])
    {
      assert parts != map[];
    }
  }
}
