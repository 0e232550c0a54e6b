/** The telemetry descrambler (`translateBytes`): octet 0 of a power packet
    is sent in the clear and its top two bits choose one of four rows of a
    permutation table; octets 1..19 are XOR-masked with the sum of two other
    rows and then reordered by the chosen row.

    Descrambling is written as its two Java loops, a masking step and a
    reordering step, over any table of four rows of nineteen positions; the
    fixed table of the protocol is `Permutations`. */
module Descrambler {
  import opened JavaBits

  const PacketLength: nat := 20
  const RowLength: nat := 19

  /** Rows of packet positions (Java `byte` values). */
  type Table = seq<seq<int>>

  /** A row of nineteen entries, each naming a packet position 1..19. */
  ghost predicate NamesPositions(row: seq<int>)
  {
    |row| == RowLength && forall i :: 0 <= i < RowLength ==> 1 <= row[i] < PacketLength
  }

  /** Four such rows. */
  ghost predicate Shaped(table: Table)
  {
    |table| == 4 && forall k :: 0 <= k < 4 ==> NamesPositions(table[k])
  }

  /** The four fixed rows of `indicesArray`. */
  const Permutations: Table := [
    [14, 15, 12, 16, 11, 5, 17, 3, 2, 1, 19, 13, 6, 4, 8, 9, 10, 18, 7],
    [12, 14, 8, 11, 16, 4, 7, 13, 18, 1, 3, 19, 6, 15, 9, 5, 10, 17, 2],
    [11, 5, 1, 9, 4, 18, 7, 15, 6, 2, 10, 12, 16, 3, 14, 13, 19, 17, 8],
    [13, 5, 18, 1, 3, 12, 15, 10, 14, 19, 16, 8, 6, 11, 2, 9, 4, 17, 7]
  ]

  lemma Row0Names() ensures NamesPositions(Permutations[0]) {}
  lemma Row1Names() ensures NamesPositions(Permutations[1]) {}
  lemma Row2Names() ensures NamesPositions(Permutations[2]) {}
  lemma Row3Names() ensures NamesPositions(Permutations[3]) {}

  lemma PermutationsShaped()
    ensures Shaped(Permutations)
  {
    Row0Names();
    Row1Names();
    Row2Names();
    Row3Names();
  }

  /** `(data[0] & 0xC0) >> 6`: the two top bits of octet 0.  The mask clears
      the bits that sign extension to `int` would set, so the byte-level
      computation is the Java one. */
  function Rotation(b0: bv8): (r: nat)
    ensures r < 4
    ensures r == b0 as int / 64
  {
    ((b0 & 0xC0) >> 6) as int
  }

  /** The XOR mask of packet position j + 1 under rotation r:
      `(byte) (indicesArray[xorIdx1][j] + indicesArray[xorIdx2][j])` with
      `xorIdx1 = (r + 1) % 4` and `xorIdx2 = (xorIdx1 + 1) % 4`.  The two
      entries are at most 19, so the sum fits in a byte unchanged. */
  function MaskOctet(table: Table, r: nat, j: nat): bv8
    requires Shaped(table) && r < 4 && j < RowLength
  {
    var xorIdx1 := (r + 1) % 4;
    var xorIdx2 := (xorIdx1 + 1) % 4;
    assert NamesPositions(table[xorIdx1]) && NamesPositions(table[xorIdx2]);
    CastToByte(table[xorIdx1][j] + table[xorIdx2][j])
  }

  /** The mask is the plain sum of the two entries: no wrap-around. */
  lemma MaskOctetIsSum(table: Table, r: nat, j: nat)
    requires Shaped(table) && r < 4 && j < RowLength
    ensures NamesPositions(table[(r + 1) % 4]) && NamesPositions(table[(r + 2) % 4])
    ensures MaskOctet(table, r, j) as int == table[(r + 1) % 4][j] + table[(r + 2) % 4][j]
  {
    var xorIdx1 := (r + 1) % 4;
    var xorIdx2 := (xorIdx1 + 1) % 4;
    assert xorIdx2 == (r + 2) % 4;
    assert NamesPositions(table[xorIdx1]) && NamesPositions(table[xorIdx2]);
    var sum := table[xorIdx1][j] + table[xorIdx2][j];
    assert sum % 256 == sum;
  }

  // ---- Step 1: masking ----

  /** The first loop: octet n (1..19) is XORed with the mask of position n.
      XOR with a fixed mask undoes itself, so the same step masks and
      unmasks. */
  function XorMask(table: Table, r: nat, data: seq<bv8>): (masked: seq<bv8>)
    requires Shaped(table) && r < 4 && |data| == PacketLength
    ensures |masked| == PacketLength && masked[0] == data[0]
    ensures forall n :: 1 <= n < PacketLength ==> masked[n] == data[n] ^ MaskOctet(table, r, n - 1)
  {
    [data[0]] + seq(RowLength, j requires 0 <= j < RowLength => data[j + 1] ^ MaskOctet(table, r, j))
  }

  lemma XorTwice(x: bv8, m: bv8)
    ensures (x ^ m) ^ m == x
  {
  }

  /** Masking twice with the same rotation restores the packet. */
  lemma XorMaskTwice(table: Table, r: nat, data: seq<bv8>)
    requires Shaped(table) && r < 4 && |data| == PacketLength
    ensures XorMask(table, r, XorMask(table, r, data)) == data
  {
    var once := XorMask(table, r, data);
    var twice := XorMask(table, r, once);
    forall n | 1 <= n < PacketLength
      ensures twice[n] == data[n]
    {
      XorTwice(data[n], MaskOctet(table, r, n - 1));
    }
  }

  // ---- Step 2: reordering ----

  /** The second loop: octet n (1..19) of the result is the octet at the
      position the row names at index n - 1. */
  function Reorder<T>(row: seq<int>, x: seq<T>): (y: seq<T>)
    requires NamesPositions(row) && |x| == PacketLength
    ensures |y| == PacketLength && y[0] == x[0]
    ensures forall n :: 1 <= n < PacketLength ==> y[n] == x[row[n - 1]]
  {
    [x[0]] + seq(RowLength, i requires 0 <= i < RowLength => x[row[i]])
  }

  /** `inv` undoes `row`: `inv[p]` is the index at which `row` names
      position p (entry 0 is not used). */
  ghost predicate InverseOf(row: seq<int>, inv: seq<int>)
  {
    LeftInverse(row, inv) && RightInverse(row, inv)
  }

  ghost predicate LeftInverse(row: seq<int>, inv: seq<int>)
  {
    NamesPositions(row) && |inv| == PacketLength &&
    forall i :: 0 <= i < RowLength ==> inv[row[i]] == i
  }

  ghost predicate RightInverse(row: seq<int>, inv: seq<int>)
  {
    |row| == RowLength && |inv| == PacketLength &&
    forall p :: 1 <= p < PacketLength ==> 0 <= inv[p] < RowLength && row[inv[p]] == p
  }

  /** A row with an inverse names no position twice and names every
      position 1..19. */
  lemma PermutationOfInverse(row: seq<int>, inv: seq<int>)
    requires InverseOf(row, inv)
    ensures forall i, j :: 0 <= i < j < |row| ==> row[i] != row[j]
    ensures forall p :: 1 <= p < PacketLength ==> p in row
  {
    assert LeftInverse(row, inv) && RightInverse(row, inv);
    forall i, j | 0 <= i < j < |row| ensures row[i] != row[j] {
      assert inv[row[i]] == i && inv[row[j]] == j;
    }
    forall p | 1 <= p < PacketLength ensures p in row {
      assert row[inv[p]] == p;
    }
  }

  /** The inverse reordering: octet p (1..19) goes back to the position
      that `inv` names for it. */
  function Restore<T>(inv: seq<int>, y: seq<T>): (x: seq<T>)
    requires |inv| == PacketLength && |y| == PacketLength
    requires forall p :: 1 <= p < PacketLength ==> 0 <= inv[p] < RowLength
    ensures |x| == PacketLength && x[0] == y[0]
    ensures forall p :: 1 <= p < PacketLength ==> x[p] == y[inv[p] + 1]
  {
    [y[0]] + seq(RowLength, j requires 0 <= j < RowLength => y[inv[j + 1] + 1])
  }

  lemma ReorderRestore<T>(row: seq<int>, inv: seq<int>, y: seq<T>)
    requires InverseOf(row, inv) && |y| == PacketLength
    ensures RightInverse(row, inv)
    ensures Reorder(row, Restore(inv, y)) == y
  {
    assert LeftInverse(row, inv) && RightInverse(row, inv);
    var x := Restore(inv, y);
    var back := Reorder(row, x);
    forall n | 1 <= n < PacketLength
      ensures back[n] == y[n]
    {
      var p := row[n - 1];
      assert back[n] == x[p];
      assert inv[p] == n - 1;
      assert x[p] == y[inv[p] + 1];
    }
  }

  lemma RestoreReorder<T>(row: seq<int>, inv: seq<int>, x: seq<T>)
    requires InverseOf(row, inv) && |x| == PacketLength
    ensures RightInverse(row, inv)
    ensures Restore(inv, Reorder(row, x)) == x
  {
    assert LeftInverse(row, inv) && RightInverse(row, inv);
    var y := Reorder(row, x);
    var back := Restore(inv, y);
    forall p | 1 <= p < PacketLength
      ensures back[p] == x[p]
    {
      var i := inv[p];
      assert back[p] == y[i + 1];
      assert row[i] == p;
      assert y[i + 1] == x[row[i]];
    }
  }

  // ---- Descrambling and its inverse ----

  /** `translateBytes`: unmask with the rotation of octet 0, then reorder
      by its row.  Octet n (1..19) of the result is the wire octet at the
      position the row names at index n - 1, unmasked. */
  function Descramble(table: Table, data: seq<bv8>): (plain: seq<bv8>)
    requires Shaped(table) && |data| == PacketLength
    ensures |plain| == PacketLength && plain[0] == data[0]
    ensures var r := Rotation(data[0]);
      NamesPositions(table[r]) &&
      forall n :: 1 <= n < PacketLength ==>
        plain[n] == data[table[r][n - 1]] ^ MaskOctet(table, r, table[r][n - 1] - 1)
  {
    var r := Rotation(data[0]);
    assert NamesPositions(table[r]);
    Reorder(table[r], XorMask(table, r, data))
  }

  /** Each row of the table has the matching row of `inverses` as its
      inverse. */
  ghost predicate Inverts(table: Table, inverses: seq<seq<int>>)
  {
    Shaped(table) && |inverses| == 4 &&
    forall k :: 0 <= k < 4 ==> InverseOf(table[k], inverses[k])
  }

  /** The device-side scrambler: undo the reordering, then mask. */
  function Scramble(table: Table, inverses: seq<seq<int>>, plain: seq<bv8>): (data: seq<bv8>)
    requires Inverts(table, inverses) && |plain| == PacketLength
    ensures |data| == PacketLength && data[0] == plain[0]
  {
    var r := Rotation(plain[0]);
    assert InverseOf(table[r], inverses[r]) && RightInverse(table[r], inverses[r]);
    XorMask(table, r, Restore(inverses[r], plain))
  }

  /** Descrambling undoes scrambling. */
  lemma DescrambleScramble(table: Table, inverses: seq<seq<int>>, plain: seq<bv8>)
    requires Inverts(table, inverses) && |plain| == PacketLength
    ensures Descramble(table, Scramble(table, inverses, plain)) == plain
  {
    var r := Rotation(plain[0]);
    assert InverseOf(table[r], inverses[r]);
    ReorderRestore(table[r], inverses[r], plain);
    var restored := Restore(inverses[r], plain);
    XorMaskTwice(table, r, restored);
  }

  /** Scrambling undoes descrambling. */
  lemma ScrambleDescramble(table: Table, inverses: seq<seq<int>>, data: seq<bv8>)
    requires Inverts(table, inverses) && |data| == PacketLength
    ensures Scramble(table, inverses, Descramble(table, data)) == data
  {
    var r := Rotation(data[0]);
    assert InverseOf(table[r], inverses[r]);
    var unmasked := XorMask(table, r, data);
    RestoreReorder(table[r], inverses[r], unmasked);
    XorMaskTwice(table, r, data);
  }

  // ---- The protocol table is invertible ----

  /** For each row k of `Permutations`, the index at which row k names
      position p (entry 0 is not used). */
  const Inverses: seq<seq<int>> := [
    [0, 9, 8, 7, 13, 5, 12, 18, 14, 15, 16, 4, 2, 11, 0, 1, 3, 6, 17, 10],
    [0, 9, 18, 10, 5, 15, 12, 6, 2, 14, 16, 3, 0, 7, 1, 13, 4, 17, 8, 11],
    [0, 2, 9, 13, 4, 1, 8, 6, 18, 3, 10, 0, 11, 15, 14, 7, 12, 17, 5, 16],
    [0, 3, 14, 4, 16, 1, 12, 18, 11, 15, 7, 13, 5, 0, 8, 6, 10, 17, 2, 9]
  ]

  lemma Row0Left() ensures LeftInverse(Permutations[0], Inverses[0]) { Row0Names(); }
  lemma Row0Right() ensures RightInverse(Permutations[0], Inverses[0]) {}
  lemma Row1Left() ensures LeftInverse(Permutations[1], Inverses[1]) { Row1Names(); }
  lemma Row1Right() ensures RightInverse(Permutations[1], Inverses[1]) {}
  lemma Row2Left() ensures LeftInverse(Permutations[2], Inverses[2]) { Row2Names(); }
  lemma Row2Right() ensures RightInverse(Permutations[2], Inverses[2]) {}
  lemma Row3Left() ensures LeftInverse(Permutations[3], Inverses[3]) { Row3Names(); }
  lemma Row3Right() ensures RightInverse(Permutations[3], Inverses[3]) {}

  /** Every row of the protocol table is a permutation of 1..19. */
  lemma PermutationsInvertible()
    ensures Inverts(Permutations, Inverses)
  {
    PermutationsShaped();
    Row0Left(); Row0Right();
    Row1Left(); Row1Right();
    Row2Left(); Row2Right();
    Row3Left(); Row3Right();
  }

  /** Under the protocol table no two packets descramble alike, and every
      20-octet result is the descrambling of some packet. */
  lemma TranslateIsBijective(a: seq<bv8>, b: seq<bv8>)
    requires |a| == PacketLength && |b| == PacketLength
    ensures Inverts(Permutations, Inverses)
    ensures Descramble(Permutations, a) == Descramble(Permutations, b) <==> a == b
    ensures Descramble(Permutations, Scramble(Permutations, Inverses, a)) == a
  {
    PermutationsInvertible();
    ScrambleDescramble(Permutations, Inverses, a);
    ScrambleDescramble(Permutations, Inverses, b);
    DescrambleScramble(Permutations, Inverses, a);
  }

  // ---- The Java method, in place on arrays ----

  /** `data.clone()` */
  method Clone(data: array<bv8>) returns (copy: array<bv8>)
    ensures fresh(copy) && copy[..] == data[..]
  {
    copy := new bv8[data.Length];
    forall i | 0 <= i < data.Length {
      copy[i] := data[i];
    }
  }

  /** The first loop of `translateBytes`: XOR octets 1..19 in place. */
  method XorMaskInPlace(table: Table, rotate: nat, translated: array<bv8>)
    requires Shaped(table) && rotate < 4 && translated.Length == PacketLength
    modifies translated
    ensures translated[..] == XorMask(table, rotate, old(translated[..]))
  {
    ghost var data := translated[..];
    var xorIdx1 := (rotate + 1) % 4;
    var xorIdx2 := (xorIdx1 + 1) % 4;
    assert NamesPositions(table[xorIdx1]) && NamesPositions(table[xorIdx2]);
    var index := 1;
    while index < 20
      invariant 1 <= index <= 20
      invariant translated[0] == data[0]
      invariant forall j :: 1 <= j < index ==> translated[j] == data[j] ^ MaskOctet(table, rotate, j - 1)
      invariant forall j :: index <= j < 20 ==> translated[j] == data[j]
    {
      var mask := CastToByte(table[xorIdx1][index - 1] + table[xorIdx2][index - 1]);
      assert mask == MaskOctet(table, rotate, index - 1);
      translated[index] := translated[index] ^ mask;
      index := index + 1;
    }
    ghost var expected := XorMask(table, rotate, data);
    assert forall n :: 1 <= n < PacketLength ==> translated[n] == expected[n];
  }

  /** The second loop of `translateBytes`: fill `reordered` (a copy of
      `translated`) in the order the row names. */
  method ReorderInto(row: seq<int>, translated: array<bv8>, reordered: array<bv8>)
    requires NamesPositions(row)
    requires translated.Length == PacketLength && reordered.Length == PacketLength
    requires translated != reordered && reordered[0] == translated[0]
    modifies reordered
    ensures reordered[..] == Reorder(row, translated[..])
  {
    var index := 0;
    while index < 19
      invariant 0 <= index <= 19
      invariant reordered[0] == translated[0]
      invariant forall j :: 0 <= j < index ==> reordered[j + 1] == translated[row[j]]
    {
      reordered[index + 1] := translated[row[index]];
      index := index + 1;
    }
    ghost var expected := Reorder(row, translated[..]);
    forall n | 1 <= n < PacketLength
      ensures reordered[n] == expected[n]
    {
      assert reordered[(n - 1) + 1] == translated[row[n - 1]];
    }
  }

  /** `translateBytes` over a given table: mask a copy of the packet, then
      reorder a second copy by the chosen row. */
  method DescrambleBytes(table: Table, data: array<bv8>) returns (reordered: array<bv8>)
    requires Shaped(table) && data.Length == PacketLength
    ensures fresh(reordered)
    ensures reordered[..] == Descramble(table, data[..])
  {
    var translated := Clone(data);
    var rotate := Rotation(data[0]);
    XorMaskInPlace(table, rotate, translated);
    reordered := Clone(translated);
    assert NamesPositions(table[rotate]);
    ReorderInto(table[rotate], translated, reordered);
  }

  /** `translateBytes` on a 20-octet packet, with the protocol table. */
  method TranslateBytes(data: array<bv8>) returns (reordered: array<bv8>)
    requires data.Length == PacketLength
    ensures fresh(reordered)
    ensures Shaped(Permutations) && reordered[..] == Descramble(Permutations, data[..])
  {
    PermutationsShaped();
    reordered := DescrambleBytes(Permutations, data);
  }
}
