/** How `putObjectRequestMultiPart` cuts the object into parts (`include/network/transaction.hpp`). */
module Slices {
  import opened Wrappers

  /** The number of parts before the cast to 16 bits. */
  function CeilParts(size: nat, split: nat): nat
    requires split > 0
  {
    size / split + if size % split != 0 then 1 else 0
  }

  function Parts(size: nat, split: nat): nat
    requires split > 0
  {
    CeilParts(size, split) % 0x1_0000
  }

  function Flatten<T>(slices: seq<seq<T>>): seq<T> {
    if slices == [] then [] else Flatten(slices[..|slices| - 1]) + slices[|slices| - 1]
  }

  /** Every slice is a non-empty piece of at most `split` bytes, and together they are the object. */
  predicate Sound<T(==)>(slices: seq<seq<T>>, data: seq<T>, split: nat) {
    && (forall s | s in slices :: 0 < |s| <= split)
    && Flatten(slices) == data
  }

  /** The offset of the loop after `n` full parts. */
  function Offset(split: nat, n: nat): nat {
    if n == 0 then 0 else Offset(split, n - 1) + split
  }

  lemma {:induction false} OffsetGrows(split: nat, a: nat, b: nat)
    requires a < b
    ensures Offset(split, a) + split <= Offset(split, b)
  {
    if a < b - 1 {
      OffsetGrows(split, a, b - 1);
    }
  }

  lemma {:induction false} OffsetTimes(split: nat, n: nat)
    ensures Offset(split, n) == n * split
  {
    if n > 0 {
      OffsetTimes(split, n - 1);
    }
  }

  /** `c` parts are just enough, and the cast never yields more than that. */
  lemma PartsFit(size: nat, split: nat)
    requires 0 < split < size
    ensures CeilParts(size, split) >= 2
    ensures Offset(split, CeilParts(size, split) - 1) < size <= Offset(split, CeilParts(size, split))
    ensures Parts(size, split) <= CeilParts(size, split)
    ensures Parts(size, split) < CeilParts(size, split) <==> CeilParts(size, split) >= 0x1_0000
    ensures Parts(size, split) > 0 ==> Offset(split, Parts(size, split) - 1) < size
  {
    var c, q := CeilParts(size, split), size / split;
    assert size == split * q + size % split;
    assert c >= 1;
    OffsetTimes(split, q);
    if c > q {
      assert Offset(split, c) == Offset(split, q) + split;
    } else {
      assert Offset(split, c) == Offset(split, c - 1) + split;
    }
    var p := Parts(size, split);
    if 0 < p < c {
      OffsetGrows(split, p - 1, c - 1);
    }
  }

  /** Part `n` of `parts`: of full length unless it is the last. */
  function Piece<T>(data: seq<T>, split: nat, parts: nat, n: nat): seq<T>
    requires 0 < n <= parts && Offset(split, parts - 1) <= |data|
  {
    var from := Offset(split, n - 1);
    if n == parts then data[from..]
    else
      OffsetGrows(split, n - 1, parts - 1);
      data[from..from + split]
  }

  /** The first `n` slices of the loop that builds `parts` of them. */
  function Cut<T>(data: seq<T>, split: nat, parts: nat, n: nat): (r: seq<seq<T>>)
    requires n <= parts && (parts > 0 ==> Offset(split, parts - 1) <= |data|)
    ensures |r| == n
  {
    if n == 0 then [] else Cut(data, split, parts, n - 1) + [Piece(data, split, parts, n)]
  }

  /** The pieces up to and including `n` join without gap or overlap. */
  lemma PieceJoins<T>(data: seq<T>, split: nat, parts: nat, n: nat)
    requires 0 < n <= parts && Offset(split, parts - 1) <= |data|
    ensures Offset(split, n - 1) <= |data| && (n < parts ==> Offset(split, n) <= |data|)
    ensures data[..Offset(split, n - 1)] + Piece(data, split, parts, n)
            == if n < parts then data[..Offset(split, n)] else data
  {
    if n < parts {
      OffsetGrows(split, n - 1, parts - 1);
    }
  }

  /** `i++` of a 16-bit number. */
  function Next(i: nat): nat {
    (i + 1) % 0x1_0000
  }

  /** The 16-bit counter of the loop after `n` increments. */
  function Counter(n: nat): nat {
    if n == 0 then 1 else Next(Counter(n - 1))
  }

  lemma {:induction false} CounterIs(n: nat)
    ensures Counter(n) == (n + 1) % 0x1_0000
  {
    if n > 0 {
      CounterIs(n - 1);
    }
  }

  /** The counter gets past `parts`, so that the loop ends. */
  ghost predicate Ends(parts: nat) {
    exists n: nat :: Counter(n) > parts
  }

  /** The counter gets past every 16-bit number but the largest. */
  lemma EndsIff(parts: nat)
    requires parts < 0x1_0000
    ensures Ends(parts) <==> parts != 0xFFFF
  {
    CounterIs(parts);
    if Ends(parts) {
      var n: nat :| Counter(n) > parts;
      CounterIs(n);
    }
  }

  /** The slices the create callback queues; none when its loop does not end. */
  ghost function Plan<T>(data: seq<T>, split: nat): (r: Option<seq<seq<T>>>)
    requires 0 < split < |data|
  {
    var parts := Parts(|data|, split);
    PartsFit(|data|, split);
    if Ends(parts) then Some(Cut(data, split, parts, parts)) else None
  }

  lemma PartsIs(size: nat, split: nat)
    requires split > 0
    ensures Parts(size, split) <= 0xFFFF
  {
  }

  lemma OffsetStep(split: nat, n: nat)
    ensures Offset(split, n + 1) == Offset(split, n) + split
  {
  }

  lemma LoopStart(split: nat)
    ensures Offset(split, 0) == 0 && Counter(0) == 1
  {
  }

  lemma CounterStep(n: nat)
    requires n < 0xFFFF
    ensures Counter(n + 1) == Next(Counter(n))
    ensures Counter(n + 1) == if n + 1 < 0xFFFF then n + 2 else 0
  {
    CounterIs(n + 1);
  }

  /**
   The loop of the create callback. Its 16-bit counter runs to `parts` inclusive; if it comes round to
   zero first, the next turn would store a message in front of the first one.
   */
  method BuildParts<T>(data: seq<T>, split: nat) returns (slices: Option<seq<seq<T>>>)
    requires 0 < split < |data|
    ensures slices == Plan(data, split)
  {
    hide Counter, Ends, Offset, Next, Parts, CeilParts;
    PartsFit(|data|, split);
    LoopStart(split);
    var parts := Parts(|data|, split);
    PartsIs(|data|, split);
    var offset := 0;
    var built: seq<seq<T>> := [];
    var i := 1;
    ghost var n := 0;
    EndsIff(parts);
    while i <= parts
      invariant i == Counter(n) && n <= parts && i == if n < 0xFFFF then n + 1 else 0
      invariant n < parts ==> offset == Offset(split, n) <= |data|
      invariant built == Cut(data, split, parts, n)
      decreases parts - n
    {
      if i == 0 {
        return None;
      }
      if i != parts {
        OffsetGrows(split, n, parts - 1);
      }
      var partSize := if i != parts then split else |data| - offset;
      assert i == parts ==> data[offset..offset + partSize] == data[offset..];
      built := built + [data[offset..offset + partSize]];
      offset := offset + partSize;
      CounterStep(n);
      OffsetStep(split, n);
      i, n := Next(i), n + 1;
    }
    return Some(built);
  }

  lemma FlattenSnoc<T>(slices: seq<seq<T>>, last: seq<T>)
    ensures Flatten(slices + [last]) == Flatten(slices) + last
  {
    assert (slices + [last])[..|slices|] == slices;
  }

  /** The slices concatenate to what the loop has passed over. */
  lemma {:induction false} CutConcatenates<T>(data: seq<T>, split: nat, parts: nat, n: nat)
    requires n <= parts && parts > 0 && Offset(split, parts - 1) <= |data|
    ensures n < parts ==> Offset(split, n) <= |data|
    ensures Flatten(Cut(data, split, parts, n)) == if n < parts then data[..Offset(split, n)] else data
  {
    if n > 0 {
      CutConcatenates(data, split, parts, n - 1);
      PieceJoins(data, split, parts, n);
      FlattenSnoc(Cut(data, split, parts, n - 1), Piece(data, split, parts, n));
    }
  }

  /** All slices but the last have full length. */
  lemma {:induction false} CutLengths<T>(data: seq<T>, split: nat, parts: nat, n: nat)
    requires n <= parts && parts > 0 && Offset(split, parts - 1) <= |data|
    ensures forall s | s in Cut(data, split, parts, n) ::
          |s| == split || (n == parts && |s| == |data| - Offset(split, parts - 1))
    ensures n == parts ==> |Cut(data, split, parts, n)[n - 1]| == |data| - Offset(split, parts - 1)
  {
    if n > 0 {
      CutLengths(data, split, parts, n - 1);
      if n < parts {
        OffsetGrows(split, n - 1, parts - 1);
      }
    }
  }

  /** `p` slices are sound exactly when `p` parts are enough, if fewer than `c` are not. */
  lemma CutSoundIff<T>(data: seq<T>, split: nat, p: nat, c: nat)
    requires 0 < p <= c && Offset(split, p - 1) < |data|
    requires Offset(split, c - 1) < |data| <= Offset(split, c)
    ensures Sound(Cut(data, split, p, p), data, split) <==> p == c
  {
    CutConcatenates(data, split, p, p);
    CutLengths(data, split, p, p);
    var r := Cut(data, split, p, p);
    assert r[p - 1] in r;
    if p < c {
      OffsetGrows(split, p - 1, c - 1);
    }
  }

  /**
   The upload consists of sound slices, as many as the object needs, exactly when the object needs at
   most 65534 of them: one more and the loop does not end, beyond that the 16-bit cast loses parts.
   */
  lemma SlicesSoundIff<T>(data: seq<T>, split: nat)
    requires 0 < split < |data|
    ensures (Plan(data, split).Some? && Sound(Plan(data, split).value, data, split))
            <==> CeilParts(|data|, split) <= 65534
    ensures CeilParts(|data|, split) <= 65534 ==> |Plan(data, split).value| == CeilParts(|data|, split)
  {
    PartsFit(|data|, split);
    EndsIff(Parts(|data|, split));
    if Parts(|data|, split) > 0 {
      CutSoundIff(data, split, Parts(|data|, split), CeilParts(|data|, split));
    }
  }

  /** Cut into single bytes, an object of 65535 bytes keeps the loop from ending; one more byte and all are lost. */
  lemma FirstToFail<T>(data: seq<T>)
    requires |data| == 65535 || |data| == 65536
    ensures |data| == 65535 ==> CeilParts(|data|, 1) == 65535 && Plan(data, 1) == None
    ensures |data| == 65536 ==> Plan(data, 1) == Some([]) && !Sound<T>([], data, 1)
  {
    EndsIff(Parts(|data|, 1));
  }
}
