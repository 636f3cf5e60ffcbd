/** Big-endian numbers and length-prefixed fields (internal/protocol/packet.go:132-193): what
    is written reads back, and a record cut short is refused. */
module WireFormat {
  import opened Basics

  type Byte = x: int | 0 <= x < 256
  type Bytes = seq<Byte>

  // ---- numbers ------------------------------------------------------------------------------

  function Pow256(w: nat): nat { if w == 0 then 1 else 256 * Pow256(w - 1) }

  lemma PowValues()
    ensures Pow256(1) == 0x100 && Pow256(2) == 0x1_0000 && Pow256(4) == 0x1_0000_0000
    ensures Pow256(8) == 0x1_0000_0000_0000_0000
  {
    assert Pow256(2) == 256 * Pow256(1);
    assert Pow256(3) == 256 * Pow256(2);
    assert Pow256(4) == 256 * Pow256(3);
    assert Pow256(5) == 256 * Pow256(4);
    assert Pow256(6) == 256 * Pow256(5);
    assert Pow256(7) == 256 * Pow256(6);
  }

  /** The low w bytes of n, most significant first. */
  function BigEndian(n: nat, w: nat): (r: Bytes)
    ensures |r| == w
  {
    if w == 0 then [] else BigEndian(n / 256, w - 1) + [n % 256]
  }

  function Value(s: Bytes): nat { if s == [] then 0 else Value(s[..|s| - 1]) * 256 + s[|s| - 1] }

  lemma {:induction false} ValueOfBigEndian(n: nat, w: nat)
    requires n < Pow256(w)
    ensures Value(BigEndian(n, w)) == n
  {
    if w > 0 {
      assert n / 256 < Pow256(w - 1);
      ValueOfBigEndian(n / 256, w - 1);
      assert BigEndian(n, w)[..w - 1] == BigEndian(n / 256, w - 1);
    }
  }

  lemma {:induction false} ValueBound(s: Bytes)
    ensures Value(s) < Pow256(|s|)
  {
    if s != [] { ValueBound(s[..|s| - 1]); }
  }

  // ---- fields ---------------------------------------------------------------------------------

  /** A number of a fixed width, bytes of a fixed count, or bytes after their 4-byte length. */
  datatype Item = Num(width: nat, value: nat) | Raw(raw: Bytes) | Blob(bytes: Bytes)

  datatype Kind = NumOf(width: nat) | RawOf(count: nat) | BlobOf

  predicate Fits(i: Item) {
    match i
    case Num(w, v) => v < Pow256(w)
    case Raw(_) => true
    case Blob(b) => |b| < Pow256(4)
  }

  function KindOf(i: Item): Kind {
    match i
    case Num(w, _) => NumOf(w)
    case Raw(b) => RawOf(|b|)
    case Blob(_) => BlobOf
  }

  /** The wire form of a field; the length of a blob is truncated to 32 bits. */
  function Put(i: Item): Bytes {
    match i
    case Num(w, v) => BigEndian(v, w)
    case Raw(b) => b
    case Blob(b) => BigEndian(|b|, 4) + b
  }

  datatype Taken<+T> = Taken(item: T, rest: Bytes)

  /** Reads one field; None if the bytes run out. */
  function Get(k: Kind, s: Bytes): Option<Taken<Item>> {
    match k
    case NumOf(w) =>
      if |s| < w then None else Some(Taken(Num(w, Value(s[..w])), s[w..]))
    case RawOf(n) =>
      if |s| < n then None else Some(Taken(Raw(s[..n]), s[n..]))
    case BlobOf =>
      if |s| < 4 then None
      else
        var n := Value(s[..4]);
        if |s[4..]| < n then None else Some(Taken(Blob(s[4..][..n]), s[4..][n..]))
  }

  /** A prefix and what follows it. */
  lemma Apart(a: Bytes, rest: Bytes)
    ensures (a + rest)[..|a|] == a && (a + rest)[|a|..] == rest
  {
  }

  /** A field reads back, whatever follows it. */
  lemma GetPut(i: Item, rest: Bytes)
    requires Fits(i)
    ensures Get(KindOf(i), Put(i) + rest) == Some(Taken(i, rest))
  {
    match i {
      case Num(w, v) =>
        ValueOfBigEndian(v, w);
        Apart(BigEndian(v, w), rest);
      case Raw(b) => Apart(b, rest);
      case Blob(b) => GetPutBlob(b, rest);
    }
  }

  lemma GetPutBlob(b: Bytes, rest: Bytes)
    requires |b| < Pow256(4)
    ensures Get(BlobOf, Put(Blob(b)) + rest) == Some(Taken(Blob(b), rest))
  {
    var len := BigEndian(|b|, 4);
    ValueOfBigEndian(|b|, 4);
    assert len + b + rest == len + (b + rest);
    Apart(len, b + rest);
    Apart(b, rest);
  }

  /** A field cut short is refused. */
  lemma GetCutShort(i: Item, n: nat)
    requires Fits(i) && n < |Put(i)|
    ensures Get(KindOf(i), Put(i)[..n]) == None
  {
    if i.Blob? && n >= 4 {
      ValueOfBigEndian(|i.bytes|, 4);
      assert Put(i)[..n][..4] == BigEndian(|i.bytes|, 4);
    }
  }

  // ---- records ----------------------------------------------------------------------------------

  function PutAll(items: seq<Item>): Bytes { if items == [] then [] else Put(items[0]) + PutAll(items[1..]) }

  function Kinds(items: seq<Item>): seq<Kind> { seq(|items|, i requires 0 <= i < |items| => KindOf(items[i])) }

  predicate AllFit(items: seq<Item>) { forall i :: 0 <= i < |items| ==> Fits(items[i]) }

  function GetAll(kinds: seq<Kind>, s: Bytes): Option<Taken<seq<Item>>> {
    if kinds == [] then Some(Taken([], s))
    else
      match Get(kinds[0], s)
      case None => None
      case Some(first) =>
        match GetAll(kinds[1..], first.rest)
        case None => None
        case Some(more) => Some(Taken([first.item] + more.item, more.rest))
  }

  lemma KindsTail(items: seq<Item>)
    requires items != []
    ensures Kinds(items)[0] == KindOf(items[0]) && Kinds(items)[1..] == Kinds(items[1..])
  {
  }

  /** A record reads back, whatever follows it. */
  lemma {:induction false} GetPutAll(items: seq<Item>, rest: Bytes)
    requires AllFit(items)
    ensures GetAll(Kinds(items), PutAll(items) + rest) == Some(Taken(items, rest))
  {
    if items == [] {
      assert PutAll(items) + rest == rest;
    } else {
      KindsTail(items);
      var tail := PutAll(items[1..]) + rest;
      assert PutAll(items) + rest == Put(items[0]) + tail;
      GetPut(items[0], tail);
      GetPutAll(items[1..], rest);
      assert [items[0]] + items[1..] == items;
    }
  }

  /** Every strict prefix of a record is refused. */
  lemma {:induction false} GetAllCutShort(items: seq<Item>, n: nat)
    requires AllFit(items) && n < |PutAll(items)|
    ensures GetAll(Kinds(items), PutAll(items)[..n]) == None
  {
    KindsTail(items);
    var first := Put(items[0]);
    if n < |first| {
      assert PutAll(items)[..n] == first[..n];
      GetCutShort(items[0], n);
    } else {
      var tail := PutAll(items[1..])[..n - |first|];
      assert PutAll(items)[..n] == first + tail;
      GetPut(items[0], tail);
      GetAllCutShort(items[1..], n - |first|);
    }
  }

  /** Records of the same layout are determined by their wire form, and so is what follows. */
  lemma {:induction false} Unambiguous(a: seq<Item>, x: Bytes, b: seq<Item>, y: Bytes)
    requires AllFit(a) && AllFit(b) && Kinds(a) == Kinds(b) && PutAll(a) + x == PutAll(b) + y
    ensures a == b && x == y
  {
    GetPutAll(a, x);
    GetPutAll(b, y);
  }

  lemma Reassociate(a: Bytes, b: Bytes, c: Bytes)
    ensures a + (b + c) == a + b + c
  {
  }

  lemma {:induction false} PutAllPlus(a: seq<Item>, b: seq<Item>)
    ensures PutAll(a + b) == PutAll(a) + PutAll(b)
  {
    if a == [] {
      assert a + b == b;
    } else {
      assert (a + b)[1..] == a[1..] + b && (a + b)[0] == a[0];
      PutAllPlus(a[1..], b);
      Reassociate(Put(a[0]), PutAll(a[1..]), PutAll(b));
    }
  }

  // ---- the cursor ---------------------------------------------------------------------------------

  /** A bounds-checked cursor; after a failure it stays failed. */
  class Reader {
    var b: Bytes
    var failed: bool

    constructor (data: Bytes)
      ensures b == data && !failed
    {
      b, failed := data, false;
    }

    method TakeBytes(n: nat) returns (out: Bytes)
      modifies this
      ensures old(failed) || n > |old(b)| ==> failed && out == [] && b == old(b)
      ensures !old(failed) && n <= |old(b)| ==> !failed && out == old(b)[..n] && b == old(b)[n..]
    {
      if failed { return []; }
      if |b| < n {
        failed := true;
        return [];
      }
      out := b[..n];
      b := b[n..];
    }

    method Read(k: Kind) returns (item: Item)
      modifies this
      ensures failed <==> old(failed) || Get(k, old(b)).None?
      ensures !failed ==> Get(k, old(b)) == Some(Taken(item, b))
    {
      match k {
        case NumOf(w) =>
          var d := TakeBytes(w);
          item := Num(w, Value(d));
        case RawOf(n) =>
          var d := TakeBytes(n);
          item := Raw(d);
        case BlobOf =>
          var d := TakeBytes(4);
          d := TakeBytes(Value(d));
          item := Blob(d);
      }
    }
  }

  /** Reads the fields of a record in order. */
  method ReadRecord(kinds: seq<Kind>, data: Bytes) returns (items: Option<seq<Item>>)
    ensures match GetAll(kinds, data) {
      case None => items == None
      case Some(t) => items == Some(t.item)
    }
  {
    var r := new Reader(data);
    var read: seq<Item> := [];
    PrefixedNone(GetAll(kinds, data));
    assert kinds[0..] == kinds;
    for i := 0 to |kinds|
      invariant r.failed ==> GetAll(kinds, data) == None
      invariant !r.failed ==> GetAll(kinds, data) == Prefixed(read, GetAll(kinds[i..], r.b))
    {
      var item := r.Read(kinds[i]);
      assert kinds[i..][1..] == kinds[i + 1..];
      if !r.failed { PrefixedMore(read, item, GetAll(kinds[i + 1..], r.b)); }
      read := read + [item];
    }
    if r.failed { return None; }
    assert kinds[|kinds|..] == [] && read + [] == read;
    return Some(read);
  }

  lemma PrefixedNone(more: Option<Taken<seq<Item>>>)
    ensures Prefixed([], more) == more
  {
    if more.Some? { assert [] + more.value.item == more.value.item; }
  }

  function Prefixed(read: seq<Item>, more: Option<Taken<seq<Item>>>): Option<Taken<seq<Item>>> {
    match more
    case None => None
    case Some(t) => Some(Taken(read + t.item, t.rest))
  }

  lemma PrefixedMore(read: seq<Item>, item: Item, more: Option<Taken<seq<Item>>>)
    ensures Prefixed(read + [item], more) == Prefixed(read, Prefixed([item], more))
  {
    if more.Some? { assert read + [item] + more.value.item == read + ([item] + more.value.item); }
  }
}
