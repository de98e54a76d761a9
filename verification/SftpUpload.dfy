/** Uploads over SFTP: writes arrive in any order and are put together when the handle is closed. */
module SftpUpload {
  import opened Options

  const MAX_FILE_SIZE: nat := 10 * 1024 * 1024
  const MAX_WRITES: nat := 10_000

  type Bytes = seq<bv8>

  datatype Write = Write(offset: nat, data: Bytes)

  function End(w: Write): nat {
    w.offset + |w.data|
  }

  predicate Covers(w: Write, p: int) {
    w.offset <= p < End(w)
  }

  /** How many writes cover a position. */
  function Cover(buf: seq<Write>, p: int): nat {
    if buf == [] then 0 else Cover(buf[..|buf| - 1], p) + if Covers(buf[|buf| - 1], p) then 1 else 0
  }

  /** Every position below n is written once, and no other position is. */
  ghost predicate Tiles(buf: seq<Write>, n: nat) {
    forall p :: Cover(buf, p) == if 0 <= p < n then 1 else 0
  }

  // ----- Each write applied at its own offset, in order of arrival -----

  function Zeros(n: nat): (r: Bytes)
    ensures |r| == n && forall i :: 0 <= i < n ==> r[i] == 0
  {
    seq(n, _ => 0)
  }

  function Overlay(file: Bytes, w: Write): Bytes {
    if w.data == [] then file
    else
      var padded := if |file| < End(w) then file + Zeros(End(w) - |file|) else file;
      padded[..w.offset] + w.data + padded[End(w)..]
  }

  function Applied(buf: seq<Write>): Bytes {
    if buf == [] then [] else Overlay(Applied(buf[..|buf| - 1]), buf[|buf| - 1])
  }

  // ----- Sorted by offset and joined -----

  /** Inserts a write after all writes that do not start later. */
  function Insert(sorted: seq<Write>, w: Write): (r: seq<Write>)
    ensures |r| == |sorted| + 1 && r[|r| - 1] in sorted + [w]
  {
    if sorted == [] || sorted[|sorted| - 1].offset <= w.offset then sorted + [w]
    else Insert(sorted[..|sorted| - 1], w) + [sorted[|sorted| - 1]]
  }

  /** The stable sort by offset. */
  function Sorted(buf: seq<Write>): (r: seq<Write>)
    ensures |r| == |buf|
  {
    if buf == [] then [] else Insert(Sorted(buf[..|buf| - 1]), buf[|buf| - 1])
  }

  function Joined(buf: seq<Write>): Bytes {
    if buf == [] then [] else Joined(buf[..|buf| - 1]) + buf[|buf| - 1].data
  }

  ghost predicate Ascending(buf: seq<Write>) {
    forall i, j :: 0 <= i < j < |buf| ==> buf[i].offset <= buf[j].offset
  }

  lemma {:induction false} InsertAscending(sorted: seq<Write>, w: Write, most: nat)
    requires Ascending(sorted) && w.offset <= most && forall i :: 0 <= i < |sorted| ==> sorted[i].offset <= most
    ensures Ascending(Insert(sorted, w))
    ensures forall i :: 0 <= i < |Insert(sorted, w)| ==> Insert(sorted, w)[i].offset <= most
  {
    if sorted != [] && sorted[|sorted| - 1].offset > w.offset {
      var n := |sorted| - 1;
      InsertAscending(sorted[..n], w, sorted[n].offset);
      AppendAscending(Insert(sorted[..n], w), sorted[n]);
    }
  }

  lemma AppendAscending(s: seq<Write>, w: Write)
    requires Ascending(s) && forall i :: 0 <= i < |s| ==> s[i].offset <= w.offset
    ensures Ascending(s + [w])
  {
  }

  lemma {:induction false} SortedAscending(buf: seq<Write>)
    ensures Ascending(Sorted(buf))
  {
    if buf != [] {
      SortedAscending(buf[..|buf| - 1]);
      var s, w := Sorted(buf[..|buf| - 1]), buf[|buf| - 1];
      InsertAscending(s, w, if s != [] && s[|s| - 1].offset > w.offset then s[|s| - 1].offset else w.offset);
    }
  }

  /** The writes of one offset, in order of arrival. */
  function AtOffset(buf: seq<Write>, offset: nat): seq<Write> {
    if buf == [] then []
    else AtOffset(buf[..|buf| - 1], offset) + if buf[|buf| - 1].offset == offset then [buf[|buf| - 1]] else []
  }

  lemma {:induction false} InsertStable(sorted: seq<Write>, w: Write, offset: nat)
    requires Ascending(sorted)
    ensures AtOffset(Insert(sorted, w), offset) == AtOffset(sorted, offset) + if w.offset == offset then [w] else []
  {
    if sorted == [] || sorted[|sorted| - 1].offset <= w.offset {
      assert (sorted + [w])[..|sorted|] == sorted;
    } else {
      var n := |sorted| - 1;
      InsertStable(sorted[..n], w, offset);
      var r := Insert(sorted[..n], w);
      assert (r + [sorted[n]])[..|r|] == r;
    }
  }

  /** Sorting keeps the writes of each offset, in order of arrival; with the order by offset that settles it. */
  lemma {:induction false} SortedStable(buf: seq<Write>, offset: nat)
    ensures AtOffset(Sorted(buf), offset) == AtOffset(buf, offset)
  {
    if buf != [] {
      var n := |buf| - 1;
      SortedStable(buf[..n], offset);
      SortedAscending(buf[..n]);
      InsertStable(Sorted(buf[..n]), buf[n], offset);
    }
  }

  /** Joining puts the data of the writes one after the other. */
  lemma {:induction false} JoinedConcat(a: seq<Write>, b: seq<Write>, w: Write)
    ensures Joined(a + b) == Joined(a) + Joined(b) && Joined([w]) == w.data && Joined([]) == []
  {
    assert [w][..0] == [];
    if b == [] {
      assert a + b == a;
    } else {
      var n := |b| - 1;
      JoinedConcat(a, b[..n], w);
      assert (a + b)[..|a| + n] == a + b[..n];
    }
  }

  // ----- The byte at a position -----

  /** The byte of the last write that covers a position. */
  function ByteAt(buf: seq<Write>, p: int): Option<bv8> {
    if buf == [] then None
    else
      var w := buf[|buf| - 1];
      if Covers(w, p) then Some(w.data[p - w.offset]) else ByteAt(buf[..|buf| - 1], p)
  }

  lemma {:induction false} Uncovered(buf: seq<Write>, p: int)
    ensures Cover(buf, p) == 0 <==> ByteAt(buf, p).None?
  {
    if buf != [] {
      Uncovered(buf[..|buf| - 1], p);
    }
  }

  lemma LastOne(buf: seq<Write>, w: Write, p: int)
    ensures Cover(buf + [w], p) == Cover(buf, p) + if Covers(w, p) then 1 else 0
    ensures ByteAt(buf + [w], p) == if Covers(w, p) then Some(w.data[p - w.offset]) else ByteAt(buf, p)
  {
    assert (buf + [w])[..|buf|] == buf;
  }

  lemma {:induction false} InsertByte(sorted: seq<Write>, w: Write, p: int)
    ensures Cover(Insert(sorted, w), p) == Cover(sorted + [w], p)
    ensures Cover(sorted + [w], p) <= 1 ==> ByteAt(Insert(sorted, w), p) == ByteAt(sorted + [w], p)
  {
    hide Cover, ByteAt;
    if sorted != [] && sorted[|sorted| - 1].offset > w.offset {
      var n := |sorted| - 1;
      var r := Insert(sorted[..n], w);
      InsertByte(sorted[..n], w, p);
      assert Insert(sorted, w) == r + [sorted[n]] && sorted == sorted[..n] + [sorted[n]];
      hide Insert;
      LastOne(r, sorted[n], p);
      LastOne(sorted[..n], w, p);
      LastOne(sorted[..n], sorted[n], p);
      LastOne(sorted, w, p);
      Uncovered(sorted[..n], p);
      Uncovered(r, p);
    }
  }

  /** Sorting changes neither how often a position is covered nor, if that is once at most, its byte. */
  lemma {:induction false} SortedByte(buf: seq<Write>, p: int)
    ensures Cover(Sorted(buf), p) == Cover(buf, p)
    ensures Cover(buf, p) <= 1 ==> ByteAt(Sorted(buf), p) == ByteAt(buf, p)
  {
    if buf != [] {
      var n := |buf| - 1;
      SortedByte(buf[..n], p);
      InsertByte(Sorted(buf[..n]), buf[n], p);
      assert (Sorted(buf[..n]) + [buf[n]])[..|Sorted(buf[..n])|] == Sorted(buf[..n]);
    }
  }

  /** The last of the writes in order of offset is the last piece of a tiling. */
  lemma LastPiece(s: seq<Write>, n: nat)
    requires Ascending(s) && s != [] && Tiles(s, n)
    ensures var w := s[|s| - 1];
            if w.data == [] then Tiles(s[..|s| - 1], n) else End(w) == n && Tiles(s[..|s| - 1], w.offset)
  {
    var before, w := s[..|s| - 1], s[|s| - 1];
    if w.data == [] {
      forall p
        ensures Cover(before, p) == if 0 <= p < n then 1 else 0
      {
        assert Cover(s, p) == Cover(before, p);
      }
    } else {
      assert Cover(s, End(w) - 1) >= 1;
      assert Cover(s, w.offset) == Cover(before, w.offset) + 1;
      AlsoCovers(before, w.offset, End(w));
      assert Cover(s, End(w)) == 0;
      forall p
        ensures Cover(before, p) == if 0 <= p < w.offset then 1 else 0
      {
        assert Cover(s, p) == if 0 <= p < n then 1 else 0;
      }
    }
  }

  /** Writes that start early enough and cover a position cover the positions before it. */
  lemma {:induction false} AlsoCovers(buf: seq<Write>, start: nat, p: int)
    requires (forall i :: 0 <= i < |buf| ==> buf[i].offset <= start) && start <= p
    ensures Cover(buf, start) >= Cover(buf, p)
  {
    if buf != [] {
      AlsoCovers(buf[..|buf| - 1], start, p);
    }
  }

  lemma {:induction false} JoinedBytes(s: seq<Write>, n: nat)
    requires Ascending(s) && Tiles(s, n)
    ensures |Joined(s)| == n
    ensures forall p :: 0 <= p < n ==> ByteAt(s, p) == Some(Joined(s)[p])
  {
    if s == [] {
      assert n > 0 ==> Cover(s, 0) == 1;
    } else {
      var before, w := s[..|s| - 1], s[|s| - 1];
      LastPiece(s, n);
      JoinedBytes(before, if w.data == [] then n else w.offset);
    }
  }

  lemma {:induction false} AppliedBytes(buf: seq<Write>)
    ensures forall p :: 0 <= p < |Applied(buf)| ==>
              Applied(buf)[p] == (if ByteAt(buf, p).Some? then ByteAt(buf, p).value else 0)
    ensures forall p :: ByteAt(buf, p).Some? ==> 0 <= p < |Applied(buf)|
    ensures Applied(buf) != [] ==> ByteAt(buf, |Applied(buf)| - 1).Some?
  {
    if buf != [] {
      AppliedBytes(buf[..|buf| - 1]);
    }
  }

  lemma SortedTiles(buf: seq<Write>, n: nat)
    requires Tiles(buf, n)
    ensures Tiles(Sorted(buf), n) && Ascending(Sorted(buf))
    ensures forall p :: ByteAt(Sorted(buf), p) == ByteAt(buf, p)
    ensures forall p :: ByteAt(buf, p).Some? <==> 0 <= p < n
  {
    hide Cover, ByteAt, Sorted, Ascending;
    SortedAscending(buf);
    forall p
      ensures Cover(Sorted(buf), p) == Cover(buf, p)
      ensures ByteAt(Sorted(buf), p) == ByteAt(buf, p)
      ensures ByteAt(buf, p).Some? <==> 0 <= p < n
    {
      SortedByte(buf, p);
      Uncovered(buf, p);
    }
  }

  /** If the writes tile a file, sorting and joining gives what applying each write at its own offset gives. */
  lemma Reassembly(buf: seq<Write>, n: nat)
    requires Tiles(buf, n)
    ensures Joined(Sorted(buf)) == Applied(buf) && |Applied(buf)| == n
  {
    hide Cover, ByteAt, Applied, Joined, Sorted, Tiles, Ascending;
    SortedTiles(buf, n);
    JoinedBytes(Sorted(buf), n);
    AppliedBytes(buf);
    assert n > 0 ==> ByteAt(buf, n - 1).Some?;
    forall p | 0 <= p < n
      ensures Joined(Sorted(buf))[p] == Applied(buf)[p]
    {
      assert ByteAt(Sorted(buf), p) == ByteAt(buf, p);
    }
  }

  // ----- Order of arrival -----

  lemma {:induction false} RemoveOne(buf: seq<Write>, j: nat, p: int)
    requires j < |buf|
    ensures Cover(buf, p) == Cover(buf[..j] + buf[j + 1..], p) + if Covers(buf[j], p) then 1 else 0
  {
    var n := |buf| - 1;
    var rest := buf[..j] + buf[j + 1..];
    if j == n {
      assert rest == buf[..n];
    } else {
      RemoveOne(buf[..n], j, p);
      assert buf[..n][..j] + buf[..n][j + 1..] == rest[..n - 1];
    }
  }

  lemma MultisetWithout(buf: seq<Write>, j: nat)
    requires j < |buf|
    ensures multiset(buf) == multiset(buf[..j] + buf[j + 1..]) + multiset{buf[j]}
  {
    assert buf == buf[..j] + [buf[j]] + buf[j + 1..];
  }

  lemma RestPermuted(a: seq<Write>, b: seq<Write>) returns (j: nat)
    requires multiset(a) == multiset(b) && a != []
    ensures j < |b| && b[j] == a[|a| - 1]
    ensures multiset(a[..|a| - 1]) == multiset(b[..j] + b[j + 1..])
  {
    var n := |a| - 1;
    assert a[n] in multiset(b);
    j :| 0 <= j < |b| && b[j] == a[n];
    MultisetWithout(b, j);
    MultisetWithout(a, n);
    assert a[..n] + a[n + 1..] == a[..n];
    assert multiset(a[..n]) == multiset(a) - multiset{a[n]};
    assert multiset(b[..j] + b[j + 1..]) == multiset(b) - multiset{b[j]};
  }

  lemma {:induction false} CoverPermuted(a: seq<Write>, b: seq<Write>, p: int)
    requires multiset(a) == multiset(b)
    ensures Cover(a, p) == Cover(b, p)
  {
    if a == [] {
      assert |multiset(b)| == |b|;
    } else {
      var j := RestPermuted(a, b);
      RemoveOne(b, j, p);
      CoverPermuted(a[..|a| - 1], b[..j] + b[j + 1..], p);
    }
  }

  /** A position covered once has the byte of the write that covers it. */
  lemma {:induction false} OnlyByte(buf: seq<Write>, i: nat, p: int)
    requires i < |buf| && Covers(buf[i], p) && Cover(buf, p) <= 1
    ensures ByteAt(buf, p) == Some(buf[i].data[p - buf[i].offset])
  {
    var n := |buf| - 1;
    if i < n {
      OnlyByte(buf[..n], i, p);
      Uncovered(buf[..n], p);
    }
  }

  lemma {:induction false} SomeCovers(buf: seq<Write>, p: int) returns (i: nat)
    requires Cover(buf, p) > 0
    ensures i < |buf| && Covers(buf[i], p)
  {
    if Covers(buf[|buf| - 1], p) {
      i := |buf| - 1;
    } else {
      i := SomeCovers(buf[..|buf| - 1], p);
    }
  }

  /** The order in which the writes of a tiling arrive does not matter. */
  lemma AnyOrder(a: seq<Write>, b: seq<Write>, n: nat)
    requires Tiles(a, n) && multiset(a) == multiset(b)
    ensures Tiles(b, n) && Joined(Sorted(a)) == Joined(Sorted(b))
  {
    forall p
      ensures Cover(b, p) == Cover(a, p) <= 1
      ensures ByteAt(a, p) == ByteAt(b, p)
    {
      CoverPermuted(a, b, p);
      if Cover(a, p) > 0 {
        var i := SomeCovers(a, p);
        OnlyByte(a, i, p);
        assert a[i] in multiset(b);
        var j :| 0 <= j < |b| && b[j] == a[i];
        OnlyByte(b, j, p);
      } else {
        Uncovered(a, p);
        Uncovered(b, p);
      }
    }
    SameBytes(a, b, n);
  }

  lemma SameBytes(a: seq<Write>, b: seq<Write>, n: nat)
    requires Tiles(a, n) && Tiles(b, n) && forall p :: ByteAt(a, p) == ByteAt(b, p)
    ensures Joined(Sorted(a)) == Joined(Sorted(b))
  {
    hide Cover, ByteAt, Applied, Joined, Sorted, Tiles;
    Reassembly(a, n);
    Reassembly(b, n);
    AppliedBytes(a);
    AppliedBytes(b);
    forall p | 0 <= p < n
      ensures Applied(a)[p] == Applied(b)[p]
    {
      assert ByteAt(a, p) == ByteAt(b, p);
    }
  }

  // ----- The handle -----

  datatype Answer = Written(count: nat) | Refused(reason: string)

  /** Adjacent pieces, in order of offset, where one does not start at the end of the other. */
  predicate Anomaly(s: seq<Write>) {
    exists i :: 0 <= i < |s| - 1 && End(s[i]) != s[i + 1].offset
  }

  /** Writes without an anomaly from offset zero on are a tiling, so the warning misses no damage but a late start. */
  lemma {:induction false} NoAnomalyTiles(s: seq<Write>)
    requires s != [] && s[0].offset == 0 && !Anomaly(s)
    ensures Tiles(s, End(s[|s| - 1]))
  {
    var n := |s| - 1;
    var w := s[n];
    if n > 0 {
      assert End(s[n - 1]) == w.offset;
      NoAnomalyTiles(s[..n]);
    } else {
      assert s[..0] == [];
    }
    forall p
      ensures Cover(s, p) == if 0 <= p < End(w) then 1 else 0
    {
      assert Cover(s[..n], p) == if 0 <= p < w.offset then 1 else 0;
    }
  }

  class Handle {
    const writing: bool
    var writeBuf: seq<Write>
    var totalWritten: nat

    constructor (writing: bool)
      ensures this.writing == writing && writeBuf == [] && totalWritten == 0
    {
      this.writing, writeBuf, totalWritten := writing, [], 0;
    }

    /** A write that makes the file too large or the writes too many is refused, but kept all the same. */
    method Put(offset: nat, data: Bytes) returns (answer: Answer)
      modifies this
      ensures offset > 10_485_760 ==>
                answer.Refused? && writeBuf == old(writeBuf) && totalWritten == old(totalWritten)
      ensures offset <= 10_485_760 ==>
                && writeBuf == old(writeBuf) + [Write(offset, data)] && totalWritten == old(totalWritten) + |data|
                && answer == if totalWritten > 10_485_760 then Refused("File too large")
                             else if |writeBuf| > 10_000 then Refused("Too many write operations")
                             else Written(|data|)
    {
      if offset > MAX_FILE_SIZE {
        return Refused("Offset too large");
      }
      writeBuf := writeBuf + [Write(offset, data)];
      totalWritten := totalWritten + |data|;
      if totalWritten > MAX_FILE_SIZE {
        return Refused("File too large");
      }
      if |writeBuf| > MAX_WRITES {
        return Refused("Too many write operations");
      }
      return Written(|data|);
    }

    /**
     Puts the writes together. Whenever they tile a file, and also whenever they start at zero
     and no anomaly is logged, the content is that of each write applied at its own offset.
     */
    method Close() returns (content: Option<Bytes>, warned: bool)
      modifies this
      ensures content.Some? <==> writing && old(writeBuf) != []
      ensures content.Some? ==>
                && content.value == Joined(Sorted(old(writeBuf))) && writeBuf == Sorted(old(writeBuf))
                && warned == Anomaly(writeBuf)
                && ((exists n: nat :: Tiles(old(writeBuf), n)) ==> content.value == Applied(old(writeBuf)))
                && (!warned && writeBuf[0].offset == 0 ==> content.value == Applied(old(writeBuf)))
    {
      content, warned := None, false;
      if writing && writeBuf != [] {
        writeBuf := Sorted(writeBuf);
        var i := 0;
        while i < |writeBuf| - 1
          invariant 0 <= i <= |writeBuf| - 1 && !warned
          invariant forall j :: 0 <= j < i ==> End(writeBuf[j]) == writeBuf[j + 1].offset
        {
          if End(writeBuf[i]) != writeBuf[i + 1].offset {
            warned := true;
            break;
          }
          i := i + 1;
        }
        var joined := [];
        for k := 0 to |writeBuf|
          invariant joined == Joined(writeBuf[..k])
        {
          assert writeBuf[..k + 1][..k] == writeBuf[..k];
          joined := joined + writeBuf[k].data;
        }
        assert writeBuf[..|writeBuf|] == writeBuf;
        content := Some(joined);
        ClosedRight(old(writeBuf), warned);
      }
    }
  }

  lemma ClosedRight(buf: seq<Write>, warned: bool)
    requires buf != [] && warned == Anomaly(Sorted(buf))
    ensures (exists n: nat :: Tiles(buf, n)) ==> Joined(Sorted(buf)) == Applied(buf)
    ensures !warned && Sorted(buf)[0].offset == 0 ==> Joined(Sorted(buf)) == Applied(buf)
  {
    hide Cover, Sorted, Joined, Applied, Anomaly;
    if n: nat :| Tiles(buf, n) {
      Reassembly(buf, n);
    }
    if !warned && Sorted(buf)[0].offset == 0 {
      NoAnomalyTiles(Sorted(buf));
      var n := End(Sorted(buf)[|buf| - 1]);
      forall p
        ensures Cover(buf, p) == Cover(Sorted(buf), p)
      {
        SortedByte(buf, p);
      }
      assert Tiles(buf, n);
      Reassembly(buf, n);
    }
  }
}
