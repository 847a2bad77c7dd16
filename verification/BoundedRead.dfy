/** Reading one regular file whole, in bounded chunks, against short reads and concurrent change. */
module BoundedRead {
  import opened Results

  type Byte = bv8

  const CHUNK := 65_536

  datatype ReadError = NotRegular | BadSize | Changed

  /** What fstat reports: the kind of file, and device, inode, size and modification time. */
  datatype Stat = Stat(regular: bool, device: int, inode: int, size: int, modified: int)

  predicate SameIdentity(a: Stat, b: Stat) {
    a.device == b.device && a.inode == b.inode && a.size == b.size && a.modified == b.modified
  }

  function Smaller(a: int, b: int): int {
    if a < b then a else b
  }

  /** The bytes of the chunks, one after another. */
  function Flatten(chunks: seq<seq<Byte>>): seq<Byte>
    decreases |chunks|
  {
    if chunks == [] then [] else Flatten(chunks[..|chunks| - 1]) + chunks[|chunks| - 1]
  }

  lemma FlattenAppend(chunks: seq<seq<Byte>>, chunk: seq<Byte>)
    ensures Flatten(chunks + [chunk]) == Flatten(chunks) + chunk
  {
  }

  // ---------------------------------------------------------------- what a loop asks for

  function Sum(xs: seq<int>): int
    decreases |xs|
  {
    if xs == [] then 0 else xs[0] + Sum(xs[1..])
  }

  lemma {:induction false} SumAppend(xs: seq<int>, x: int)
    ensures Sum(xs + [x]) == Sum(xs) + x
    decreases |xs|
  {
    if xs == [] {
      assert [x][1..] == [];
    } else {
      assert (xs + [x])[1..] == xs[1..] + [x];
      SumAppend(xs[1..], x);
    }
  }

  /** The requests of a loop that wants left more bytes, and what each of them was given: the rest up
      to the chunk size is asked for, and an empty answer is the last one. */
  predicate Asks(left: int, asked: seq<int>, taken: seq<int>)
    decreases |asked|
  {
    && |asked| == |taken|
    && (asked != [] ==>
          && left > 0 && asked[0] == Smaller(left, 65_536) && 0 <= taken[0] <= asked[0]
          && (taken[0] == 0 ==> |asked| == 1)
          && Asks(left - taken[0], asked[1..], taken[1..]))
  }

  lemma {:induction false} AsksMore(left: int, asked: seq<int>, taken: seq<int>, ask: int, take: int)
    requires Asks(left, asked, taken) && (forall i | 0 <= i < |taken| :: taken[i] > 0)
    requires left > Sum(taken) && ask == Smaller(left - Sum(taken), CHUNK) && 0 <= take <= ask
    ensures Asks(left, asked + [ask], taken + [take])
    decreases |asked|
  {
    if asked != [] {
      assert (asked + [ask])[1..] == asked[1..] + [ask] && (taken + [take])[1..] == taken[1..] + [take];
      AsksMore(left - taken[0], asked[1..], taken[1..], ask, take);
    }
  }

  lemma {:induction false} AsksBounded(left: int, asked: seq<int>, taken: seq<int>)
    requires Asks(left, asked, taken)
    ensures forall i | 0 <= i < |asked| :: 0 < asked[i] <= CHUNK && asked[i] <= left
    decreases |asked|
  {
    if asked != [] {
      AsksBounded(left - taken[0], asked[1..], taken[1..]);
    }
  }

  /** The reads before the last one gave all that was asked. */
  predicate InFull(asked: seq<int>, taken: seq<int>)
    requires |asked| == |taken|
    decreases |asked|
  {
    |asked| <= 1 || (taken[0] == asked[0] && InFull(asked[1..], taken[1..]))
  }

  /** By how much the reads before the last one fell short, together. */
  function Shortfall(asked: seq<int>, taken: seq<int>): int
    requires |asked| == |taken|
    decreases |asked|
  {
    if |asked| <= 1 then 0 else asked[0] - taken[0] + Shortfall(asked[1..], taken[1..])
  }

  /** A loop that got all but one of the bytes it wanted, and then nothing. */
  predicate Ended(left: int, asked: seq<int>, taken: seq<int>) {
    && Asks(left, asked, taken)
    && taken != [] && taken[|taken| - 1] == 0 && Sum(taken) == left - 1
  }

  /** Main result: the requests of a successful read of size bytes sum to the size, plus one, plus the
      shortfall of all reads before the last. */
  lemma {:induction false} RequestSum(left: int, asked: seq<int>, taken: seq<int>)
    requires Ended(left, asked, taken)
    ensures Sum(asked) == left + Shortfall(asked, taken)
    decreases |asked|
  {
    if |asked| == 1 {
      assert asked[1..] == [] && taken[1..] == [];
    } else {
      RequestSum(left - taken[0], asked[1..], taken[1..]);
    }
  }

  lemma {:induction false} ShortfallIsNone(left: int, asked: seq<int>, taken: seq<int>)
    requires Asks(left, asked, taken)
    ensures Shortfall(asked, taken) >= 0
    ensures Shortfall(asked, taken) == 0 <==> InFull(asked, taken)
    decreases |asked|
  {
    if |asked| > 1 {
      ShortfallIsNone(left - taken[0], asked[1..], taken[1..]);
    }
  }

  /** Main result: a successful read requests at most one byte more than the file has exactly when every
      read before the last was answered in full. */
  lemma RequestsBounded(size: nat, asked: seq<int>, taken: seq<int>)
    requires Ended(size + 1, asked, taken)
    ensures Sum(asked) >= size + 1
    ensures Sum(asked) <= size + 1 <==> InFull(asked, taken)
  {
    RequestSum(size + 1, asked, taken);
    ShortfallIsNone(size + 1, asked, taken);
  }

  /** Reads that give all they can of a file of this many bytes. */
  predicate Generous(bytes: int, asked: seq<int>, taken: seq<int>)
    decreases |asked|
  {
    && |asked| == |taken|
    && (asked != [] ==> taken[0] == Smaller(asked[0], bytes) && Generous(bytes - taken[0], asked[1..], taken[1..]))
  }

  /** Main result: when reads give all they can, the requests for an unchanged file sum to its size plus
      one exactly when the size is a multiple of the chunk, and to one more otherwise. */
  lemma {:induction false} UndisturbedRequests(size: nat, asked: seq<int>, taken: seq<int>)
    requires Ended(size + 1, asked, taken) && Generous(size, asked, taken)
    ensures Sum(asked) == size + 1 + (if size % 65_536 == 0 then 0 else 1)
    decreases |asked|
  {
    if |asked| == 1 {
      assert asked[1..] == [] && taken[1..] == [];
    } else {
      UndisturbedRequests(size - taken[0], asked[1..], taken[1..]);
    }
  }

  /** An ordinary file of ten bytes, read in one go: eleven are requested, then one. */
  lemma TenBytesAskTwelve()
    ensures Ended(11, [11, 1], [10, 0]) && Generous(10, [11, 1], [10, 0])
    ensures Sum([11, 1]) == 12
  {
    assert [11, 1][1..] == [1] && [10, 0][1..] == [0] && [1][1..] == [] && [0][1..] == [];
    assert Sum([1]) == 1 && Sum([0]) == 0 && Asks(1, [1], [0]) && Generous(0, [1], [0]);
  }

  /** How far a loop has come whose answers so far were not empty. */
  predicate Progress(
    size: nat, stream: seq<Byte>, position: nat, asked: seq<int>, taken: seq<int>, chunks: seq<seq<Byte>>)
  {
    && position <= |stream| && |asked| <= position
    && Flatten(chunks) == stream[..position]
    && Asks(size + 1, asked, taken) && Sum(taken) == position
    && forall i | 0 <= i < |taken| :: taken[i] > 0
  }

  lemma ProgressMore(
    size: nat, stream: seq<Byte>, position: nat, asked: seq<int>, taken: seq<int>, chunks: seq<seq<Byte>>,
    limit: nat, next: nat)
    requires Progress(size, stream, position, asked, taken, chunks)
    requires position < size + 1 && limit == Smaller(size + 1 - position, CHUNK)
    requires position <= next <= |stream| && next - position <= limit
    ensures Asks(size + 1, asked + [limit], taken + [next - position])
    ensures Sum(taken + [next - position]) == next
    ensures next > position ==>
      Progress(size, stream, next, asked + [limit], taken + [next - position], chunks + [stream[position..next]])
  {
    AsksMore(size + 1, asked, taken, limit, next - position);
    SumAppend(taken, next - position);
    FlattenAppend(chunks, stream[position..next]);
    assert stream[..next] == stream[..position] + stream[position..next];
  }

  // ---------------------------------------------------------------- the descriptor and the loop

  /** An open descriptor. stream is everything that reads of it yield before the first empty one,
      whatever other processes do to the file meanwhile; asked and taken are the sizes of all reads
      and of their answers. */
  class Descriptor {
    const stream: seq<Byte>
    var position: nat
    ghost var asked: seq<int>
    ghost var taken: seq<int>

    constructor (stream: seq<Byte>)
      ensures Valid() && this.stream == stream && position == 0 && asked == taken == []
    {
      this.stream := stream;
      position := 0;
      asked := [];
      taken := [];
    }

    predicate Valid()
      reads this
    {
      position <= |stream|
    }

    /** os.read: some of what is left, at most limit bytes, and nothing only at the end. */
    method Read(limit: nat) returns (chunk: seq<Byte>)
      requires Valid() && limit > 0
      modifies this
      ensures Valid() && asked == old(asked) + [limit] && taken == old(taken) + [|chunk|]
      ensures old(position) <= position <= old(position) + limit
      ensures chunk == stream[old(position)..position]
      ensures chunk == [] <==> old(position) == |stream|
    {
      asked := asked + [limit];
      if position == |stream| {
        taken := taken + [0];
        return [];
      }
      var next: nat :| position < next <= |stream| && next <= position + limit;
      chunk := stream[position..next];
      taken := taken + [|chunk|];
      position := next;
    }
  }

  /** _read_regular_file, from the open descriptor on. before and after are the two fstat results.
      For every way that reads may be cut short: the read succeeds exactly when the file is regular,
      has an allowed size, yields exactly that many bytes and kept its identity, and then returns
      just the bytes it yielded. It never takes more than one byte beyond the size; how much it
      requests is what Ended describes. */
  method ReadRegularFile(d: Descriptor, before: Stat, after: Stat, maximum: nat)
    returns (r: Result<seq<Byte>, ReadError>)
    requires d.Valid() && d.position == 0 && d.asked == d.taken == []
    modifies d
    ensures r.Ok? <==>
      && before.regular && 0 < before.size <= maximum
      && |d.stream| == before.size
      && before.device == after.device && before.inode == after.inode
      && before.size == after.size && before.modified == after.modified
    ensures r.Ok? ==> r.value == d.stream
    ensures r == Err(NotRegular) <==> !before.regular
    ensures r == Err(BadSize) <==> before.regular && !(0 < before.size <= maximum)
    ensures d.Valid() && (d.position > 0 ==> d.position <= before.size + 1)
    ensures forall i | 0 <= i < |d.asked| :: 0 < d.asked[i] <= 65_536 && d.asked[i] <= before.size + 1
    ensures Asks(before.size + 1, d.asked, d.taken)
    ensures r.Ok? ==> Ended(before.size + 1, d.asked, d.taken)
    ensures r.Ok? ==> Sum(d.asked) == before.size + 1 + Shortfall(d.asked, d.taken)
    ensures d.asked == [] || |d.asked| <= before.size + 1
  {
    if !before.regular {
      return Err(NotRegular);
    }
    if before.size <= 0 || before.size > maximum {
      return Err(BadSize);
    }
    var chunks: seq<seq<Byte>> := [];
    var remaining := before.size + 1;
    while remaining > 0
      invariant 0 <= remaining == before.size + 1 - d.position
      invariant Progress(before.size, d.stream, d.position, d.asked, d.taken, chunks)
      decreases remaining
    {
      ghost var position, asked, taken := d.position, d.asked, d.taken;
      var chunk := d.Read(Smaller(remaining, CHUNK));
      ProgressMore(before.size, d.stream, position, asked, taken, chunks, Smaller(remaining, CHUNK), d.position);
      if chunk == [] {
        break;
      }
      chunks := chunks + [chunk];
      remaining := remaining - |chunk|;
    }
    AsksBounded(before.size + 1, d.asked, d.taken);
    var raw := Flatten(chunks);
    if |raw| != before.size || !SameIdentity(before, after) {
      return Err(Changed);
    }
    assert d.position == before.size;
    assert d.position == |d.stream|;
    RequestSum(before.size + 1, d.asked, d.taken);
    r := Ok(raw);
  }
}
