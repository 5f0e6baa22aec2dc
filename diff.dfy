/** The byte-stream comparator (the `diff` helper program).

    It reads the tested program's output (its standard input) and a reference
    file in lock-step chunks of `ChunkSize` bytes, counts the positions at which
    the two chunks agree, and exits with the percentage of agreeing positions.
    The comparison is positional at fixed offsets: no alignment is attempted. */
module Diff {

  /** Bytes each round tries to take from each source (BYTES_TO_READ). */
  const ChunkSize: nat := 64

  /** Exit status reporting a failure of the comparator itself. */
  const FailureStatus: int := 255

  function Min(a: int, b: int): int { if a <= b then a else b }
  function Max(a: int, b: int): int { if a >= b then a else b }

  // ---------------------------------------------------------------------------
  // Specification: positional comparison of whole streams
  // ---------------------------------------------------------------------------

  /** Number of positions i < n at which u and c hold the same byte. */
  function MatchCount(u: seq<bv8>, c: seq<bv8>, n: nat): (r: nat)
    requires n <= |u| && n <= |c|
    ensures r <= n
  {
    if n == 0 then 0
    else MatchCount(u, c, n - 1) + (if u[n - 1] == c[n - 1] then 1 else 0)
  }

  /** Fixed-offset comparison: the agreeing positions below the shorter length. */
  function Matches(u: seq<bv8>, c: seq<bv8>): (r: nat)
    ensures r <= |u| && r <= |c|
  {
    MatchCount(u, c, Min(|u|, |c|))
  }

  /** The result the comparator promises: 100 for two empty streams, otherwise
      the truncated percentage of agreeing positions over the longer length. */
  function Percentage(u: seq<bv8>, c: seq<bv8>): (r: nat)
    ensures r <= 100
  {
    if |u| == 0 && |c| == 0 then 100
    else
      var m := Matches(u, c);
      var longest := Max(|u|, |c|);
      DivAtMost(100 * m, longest, 100);
      100 * m / longest
  }

  lemma DivAtMost(x: nat, d: nat, k: nat)
    requires 0 < d && x <= k * d
    ensures x / d <= k
  {
  }

  // ---------------------------------------------------------------------------
  // Specification of the chunked loop
  // ---------------------------------------------------------------------------

  /** What the lock-step loop counts: each round takes up to ChunkSize bytes
      from each stream and compares the two chunks over their overlap; the
      loop stops when a round takes nothing from either stream. */
  function ChunkedMatches(u: seq<bv8>, c: seq<bv8>): nat
    decreases |u| + |c|
  {
    if |u| == 0 && |c| == 0 then 0
    else
      var a := Min(ChunkSize, |u|);
      var b := Min(ChunkSize, |c|);
      MatchCount(u[..a], c[..b], Min(a, b)) + ChunkedMatches(u[a..], c[b..])
  }

  /** The count below n depends only on the first n bytes of each stream. */
  lemma {:induction false} MatchCountLocal(u: seq<bv8>, c: seq<bv8>, u': seq<bv8>, c': seq<bv8>, n: nat)
    requires n <= |u| && n <= |c| && n <= |u'| && n <= |c'|
    requires u[..n] == u'[..n] && c[..n] == c'[..n]
    ensures MatchCount(u, c, n) == MatchCount(u', c', n)
  {
    if n > 0 {
      assert u[..n - 1] == u[..n][..n - 1] && u'[..n - 1] == u'[..n][..n - 1];
      assert c[..n - 1] == c[..n][..n - 1] && c'[..n - 1] == c'[..n][..n - 1];
      assert u[n - 1] == u[..n][n - 1] && u'[n - 1] == u'[..n][n - 1];
      assert c[n - 1] == c[..n][n - 1] && c'[n - 1] == c'[..n][n - 1];
      MatchCountLocal(u, c, u', c', n - 1);
    }
  }

  /** Counting below k + n is counting below k, then n more from offset k. */
  lemma {:induction false} MatchCountSplit(u: seq<bv8>, c: seq<bv8>, k: nat, n: nat)
    requires k + n <= |u| && k + n <= |c|
    ensures MatchCount(u, c, k + n) == MatchCount(u, c, k) + MatchCount(u[k..], c[k..], n)
  {
    if n > 0 {
      MatchCountSplit(u, c, k, n - 1);
      assert u[k..][n - 1] == u[k + n - 1] && c[k..][n - 1] == c[k + n - 1];
    }
  }

  /** All n positions agree exactly when the count below n is n. */
  lemma {:induction false} MatchCountFull(u: seq<bv8>, c: seq<bv8>, n: nat)
    requires n <= |u| && n <= |c|
    ensures MatchCount(u, c, n) == n <==> forall i :: 0 <= i < n ==> u[i] == c[i]
  {
    if n > 0 {
      MatchCountFull(u, c, n - 1);
    }
  }

  /** The key theorem: chunking does not change what is counted. The chunked
      count is exactly the whole-stream positional comparison over the shorter
      length. */
  lemma {:induction false} ChunkedIsPositional(u: seq<bv8>, c: seq<bv8>)
    ensures ChunkedMatches(u, c) == Matches(u, c)
    decreases |u| + |c|
  {
    if |u| == 0 && |c| == 0 {
    } else {
      var a := Min(ChunkSize, |u|);
      var b := Min(ChunkSize, |c|);
      ChunkStep(u, c, a, b);
      FirstChunk(u, c, a, b);
      ChunkedIsPositional(u[a..], c[b..]);
      AfterFirstChunk(u, c, a, b);
    }
  }

  /** The first round compares the streams' own first bytes. */
  lemma FirstChunk(u: seq<bv8>, c: seq<bv8>, a: nat, b: nat)
    requires a == Min(ChunkSize, |u|) && b == Min(ChunkSize, |c|)
    ensures MatchCount(u[..a], c[..b], Min(a, b)) == MatchCount(u, c, Min(a, b))
  {
    var k := Min(a, b);
    assert u[..a][..k] == u[..k] && c[..b][..k] == c[..k];
    MatchCountLocal(u[..a], c[..b], u, c, k);
  }

  /** After the first round the rest of the positional comparison is the
      comparison of the remainders. */
  lemma AfterFirstChunk(u: seq<bv8>, c: seq<bv8>, a: nat, b: nat)
    requires a == Min(ChunkSize, |u|) && b == Min(ChunkSize, |c|)
    ensures MatchCount(u, c, Min(a, b)) + Matches(u[a..], c[b..]) == Matches(u, c)
  {
    if a == ChunkSize && b == ChunkSize {
      MatchCountSplit(u, c, ChunkSize, Min(|u|, |c|) - ChunkSize);
      assert Min(|u[a..]|, |c[b..]|) == Min(|u|, |c|) - ChunkSize;
    } else {
      assert Min(a, b) == Min(|u|, |c|);
      assert Min(|u[a..]|, |c[b..]|) == 0;
    }
  }

  /** A truncated percentage reaches 100 only when the part is the whole. */
  lemma FullPercentMeansWhole(m: nat, total: nat)
    requires 0 < total && m <= total
    ensures 100 * m / total == 100 <==> m == total
  {
  }

  /** Full marks exactly for identical streams (both directions). */
  lemma PercentageFullIffIdentical(u: seq<bv8>, c: seq<bv8>)
    ensures Percentage(u, c) == 100 <==> u == c
  {
    if |u| == 0 && |c| == 0 {
    } else {
      var m := Matches(u, c);
      var longest := Max(|u|, |c|);
      var shortest := Min(|u|, |c|);
      FullPercentMeansWhole(m, longest);
      MatchCountFull(u, c, shortest);
      if u == c {
        assert m == longest;
      }
      if m == longest {
        assert shortest == longest;
        assert u == c;
      }
    }
  }

  /** A byte x inserted in front of u shifts every comparison by one: when x
      differs from u's first byte and no two neighbouring bytes of u are
      equal, no position agrees. */
  lemma {:induction false} ShiftedMatchNothing(u: seq<bv8>, x: bv8, n: nat)
    requires n <= |u|
    requires |u| > 0 ==> x != u[0]
    requires forall i :: 0 < i < |u| ==> u[i] != u[i - 1]
    ensures MatchCount(u, [x] + u, n) == 0
  {
    if n > 0 {
      ShiftedMatchNothing(u, x, n - 1);
      assert ([x] + u)[n - 1] == if n == 1 then x else u[n - 2];
    }
  }

  /** Fixed-offset semantics: the same output with one extra leading byte
      scores 0, although the output without it scores 100. */
  lemma InsertedByteShiftsEverything(u: seq<bv8>, x: bv8)
    requires |u| > 0 ==> x != u[0]
    requires forall i :: 0 < i < |u| ==> u[i] != u[i - 1]
    ensures Percentage(u, [x] + u) == 0
    ensures Percentage(u, u) == 100
  {
    ShiftedMatchNothing(u, x, |u|);
    PercentageFullIffIdentical(u, u);
  }

  // ---------------------------------------------------------------------------
  // Imperative model: descriptors, the chunk-filling loop and the main loop
  // ---------------------------------------------------------------------------

  /** An open file descriptor: everything it will ever yield is `data`; `pos`
      is how much has been delivered so far. The operating system may split a
      read into any number of shorter reads. Errors are part of the
      environment: every read issued at an offset of at least `failFrom`
      fails, and `close` fails when `closeFails` holds. Since the comparator
      stops at its first failing read, every failing run is described by the
      offset of that read. */
  class Source {
    const data: seq<bv8>
    const failFrom: nat
    const closeFails: bool
    var pos: nat

    ghost predicate Valid()
      reads this
    {
      pos <= |data|
    }

    /** True when some read up to and including the one at end of data
        fails, which is the case exactly when a full read-through fails. */
    predicate ReadFails()
    {
      failFrom <= |data|
    }

    constructor (data: seq<bv8>, failFrom: nat, closeFails: bool)
      ensures Valid() && pos == 0
      ensures this.data == data && this.failFrom == failFrom && this.closeFails == closeFails
    {
      this.data := data;
      this.failFrom := failFrom;
      this.closeFails := closeFails;
      pos := 0;
    }

    /** read(2): delivers between 1 and `want` bytes into buf[off..], 0 at end
        of data, or -1 on an error. */
    method Read(buf: array<bv8>, off: nat, want: nat) returns (n: int)
      requires Valid() && 0 < want && off + want <= buf.Length
      modifies this, buf
      ensures Valid() && -1 <= n <= want
      ensures n < 0 <==> old(pos) >= failFrom
      ensures n == 0 ==> old(pos) == |data|
      ensures pos == old(pos) + (if n > 0 then n else 0)
      ensures n > 0 ==> buf[off..off + n] == data[old(pos)..pos]
      ensures forall i :: 0 <= i < buf.Length && !(off <= i < off + n) ==> buf[i] == old(buf[i])
    {
      if pos >= failFrom {
        return -1;
      }
      if pos == |data| {
        return 0;
      }
      var got: int :| 1 <= got <= want && got <= |data| - pos;
      forall i | off <= i < off + got {
        buf[i] := data[pos + i - off];
      }
      pos := pos + got;
      n := got;
    }

    /** close(2): reports an error exactly when the environment makes it
        fail. */
    method Close() returns (ok: bool)
      ensures ok <==> !closeFails
    {
      ok := !closeFails;
    }
  }

  /** One inner read loop: keep reading into `buf` until it holds ChunkSize
      bytes or the source reports end of data. Returns the number of bytes
      taken, or -1 when a read fails. A chunk is short only when its source
      has ended. */
  method FillChunk(src: Source, buf: array<bv8>) returns (total: int)
    requires src.Valid() && buf.Length == ChunkSize
    modifies src, buf
    ensures src.Valid()
    ensures total < 0 ==> src.ReadFails()
    ensures old(src.pos) + ChunkSize > |src.data| ==> (total < 0 <==> src.ReadFails())
    ensures total == 0 ==> old(src.pos) == |src.data| && !src.ReadFails()
    ensures total >= 0 ==> total == Min(ChunkSize, |src.data| - old(src.pos))
    ensures total >= 0 ==> src.pos == old(src.pos) + total
    ensures total >= 0 ==> buf[..total] == src.data[old(src.pos)..src.pos]
  {
    total := 0;
    while total < ChunkSize
      invariant src.Valid()
      invariant 0 <= total <= ChunkSize
      invariant src.pos == old(src.pos) + total
      invariant buf[..total] == src.data[old(src.pos)..src.pos]
      decreases ChunkSize - total
    {
      ghost var before := buf[..];
      ghost var from := src.pos;
      var n := src.Read(buf, total, ChunkSize - total);
      if n == 0 {
        break;
      }
      if n < 0 {
        return -1;
      }
      assert buf[..total] == before[..total];
      assert buf[..total + n] == buf[..total] + buf[total..total + n];
      assert src.data[old(src.pos)..src.pos] == src.data[old(src.pos)..from] + src.data[from..src.pos];
      total := total + n;
    }
  }

  /** The counting `for` loop of one round: agreeing positions over the
      overlap of the first `lenU` bytes of `userBytes` and the first `lenC`
      bytes of `correctBytes`. */
  method CountChunk(userBytes: array<bv8>, correctBytes: array<bv8>, lenU: nat, lenC: nat) returns (counted: nat)
    requires lenU <= userBytes.Length && lenC <= correctBytes.Length
    ensures counted == MatchCount(userBytes[..lenU], correctBytes[..lenC], Min(lenU, lenC))
  {
    counted := 0;
    if lenU > 0 && lenC > 0 {
      var i := 0;
      while i < lenU && i < lenC
        invariant 0 <= i <= Min(lenU, lenC)
        invariant counted == MatchCount(userBytes[..lenU], correctBytes[..lenC], i)
      {
        if userBytes[i] == correctBytes[i] {
          counted := counted + 1;
        }
        i := i + 1;
      }
    }
  }

  /** One round of the loop, stated on the unread remainders u and c. */
  lemma ChunkStep(u: seq<bv8>, c: seq<bv8>, a: nat, b: nat)
    requires a == Min(ChunkSize, |u|) && b == Min(ChunkSize, |c|)
    requires a > 0 || b > 0
    ensures ChunkedMatches(u, c) == MatchCount(u[..a], c[..b], Min(a, b)) + ChunkedMatches(u[a..], c[b..])
  {
  }

  /** Taking `a` bytes from the remainder of `data` at offset `p`. */
  lemma Advance(data: seq<bv8>, p: nat, a: nat)
    requires p + a <= |data|
    ensures data[p..][..a] == data[p..p + a] && data[p..][a..] == data[p + a..]
  {
  }

  /** One round of the `while (1)` loop: FillChunk on each source, then
      CountChunk on the pair when either chunk is non-empty. */
  method Round(user: Source, reference: Source, userBytes: array<bv8>, correctBytes: array<bv8>)
    returns (failed: bool, totalU: nat, totalC: nat, counted: nat)
    requires user != reference && userBytes != correctBytes
    requires user.Valid() && reference.Valid()
    requires userBytes.Length == ChunkSize && correctBytes.Length == ChunkSize
    modifies user, reference, userBytes, correctBytes
    ensures user.Valid() && reference.Valid()
    ensures failed ==> user.ReadFails() || reference.ReadFails()
    ensures !failed ==> user.pos == old(user.pos) + totalU && reference.pos == old(reference.pos) + totalC
    ensures !failed && totalU == 0 && totalC == 0 ==>
              !user.ReadFails() && !reference.ReadFails() && user.pos == |user.data| && reference.pos == |reference.data|
    ensures !failed && (totalU > 0 || totalC > 0) ==>
              counted + ChunkedMatches(user.data[user.pos..], reference.data[reference.pos..])
              == ChunkedMatches(user.data[old(user.pos)..], reference.data[old(reference.pos)..])
  {
    var pu, pc := user.pos, reference.pos;
    var u := FillChunk(user, userBytes);
    if u < 0 {
      return true, 0, 0, 0;
    }
    var c := FillChunk(reference, correctBytes);
    if c < 0 {
      return true, 0, 0, 0;
    }
    totalU, totalC := u, c;
    if totalU == 0 && totalC == 0 {
      return false, 0, 0, 0;
    }
    counted := CountChunk(userBytes, correctBytes, totalU, totalC);
    Advance(user.data, pu, totalU);
    Advance(reference.data, pc, totalC);
    ChunkStep(user.data[pu..], reference.data[pc..], totalU, totalC);
    failed := false;
  }

  /** The `while (1)` loop: rounds of FillChunk on each source and
      CountChunk on the pair, until a round takes nothing from either. On
      success both sources are exhausted and the count is ChunkedMatches of
      the two streams; `ok` is false exactly when a read fails, which happens
      exactly when a read-through of either source fails. */
  method LockStep(user: Source, reference: Source) returns (ok: bool, sameBytes: nat, sizeOfU: nat, sizeOfC: nat)
    requires user != reference
    requires user.Valid() && user.pos == 0
    requires reference.Valid() && reference.pos == 0
    modifies user, reference
    ensures user.Valid() && reference.Valid()
    ensures ok <==> !user.ReadFails() && !reference.ReadFails()
    ensures ok ==> sizeOfU == user.pos == |user.data| && sizeOfC == reference.pos == |reference.data|
    ensures ok ==> sameBytes == ChunkedMatches(user.data, reference.data)
  {
    var userBytes := new bv8[ChunkSize];
    var correctBytes := new bv8[ChunkSize];
    sameBytes, sizeOfU, sizeOfC := 0, 0, 0;
    while true
      invariant user.Valid() && reference.Valid()
      invariant sizeOfU == user.pos && sizeOfC == reference.pos
      invariant sameBytes + ChunkedMatches(user.data[user.pos..], reference.data[reference.pos..])
                == ChunkedMatches(user.data, reference.data)
      decreases |user.data| - user.pos + |reference.data| - reference.pos
    {
      var failed, totalU, totalC, counted := Round(user, reference, userBytes, correctBytes);
      if failed {
        return false, sameBytes, sizeOfU, sizeOfC;
      }
      sizeOfU := sizeOfU + totalU;
      sizeOfC := sizeOfC + totalC;
      if totalU == 0 && totalC == 0 {
        break;
      }
      sameBytes := sameBytes + counted;
    }
    ok := true;
  }

  /** The comparator once the reference file is open: the lock-step loop,
      closing the reference, and the percentage. Exits with 255 exactly when a
      read or the close reports an error; otherwise both streams were read to
      their ends and the exit status is Percentage of the two. */
  method Compare(user: Source, reference: Source) returns (code: int)
    requires user != reference
    requires user.Valid() && user.pos == 0
    requires reference.Valid() && reference.pos == 0
    modifies user, reference
    ensures code == FailureStatus <==> user.ReadFails() || reference.ReadFails() || reference.closeFails
    ensures code != FailureStatus ==> code == Percentage(user.data, reference.data)
    ensures code != FailureStatus ==> user.pos == |user.data| && reference.pos == |reference.data|
  {
    var ok, sameBytes, sizeOfU, sizeOfC := LockStep(user, reference);
    if !ok {
      var _ := reference.Close();
      return FailureStatus;
    }
    var closed := reference.Close();
    if !closed {
      return FailureStatus;
    }
    ChunkedIsPositional(user.data, reference.data);
    assert sameBytes == Matches(user.data, reference.data);
    if sizeOfU == 0 && sizeOfC == 0 {
      return 100;
    }
    code := (sameBytes * 100) / Max(sizeOfU, sizeOfC);
    assert code == Percentage(user.data, reference.data);
  }

  /** The comparator program: `reference` is null when the reference file
      could not be opened, which is a failure of the comparator (255). */
  method DiffMain(user: Source, reference: Source?) returns (code: int)
    requires user != reference
    requires user.Valid() && user.pos == 0
    requires reference != null ==> reference.Valid() && reference.pos == 0
    modifies user, reference
    ensures reference == null ==> code == FailureStatus
    ensures code == FailureStatus || 0 <= code <= 100
    ensures reference != null ==> (code == FailureStatus <==> user.ReadFails() || reference.ReadFails() || reference.closeFails)
    ensures reference != null && code != FailureStatus ==> code == Percentage(user.data, reference.data)
  {
    if reference == null {
      return FailureStatus;
    }
    code := Compare(user, reference);
  }
}
