/**
 * The cyclic credit fill of the cartridge packer: every byte of a page buffer
 * that no program, header or data byte overwrites holds a byte of the credit
 * string, repeated from the start of the buffer.
 */
module EgoFill {

  /** A byte string: a file's contents, a page buffer or a slice of either. */
  type Bytes = seq<bv8>

  /**
   * The credit string, without its terminating NUL:
   * "Made with packdatacart by Tursi - http://harmlesslion.com - "
   * written ten bytes per line.
   */
  const Credit: Bytes :=
    [0x4d, 0x61, 0x64, 0x65, 0x20, 0x77, 0x69, 0x74, 0x68, 0x20] +
    [0x70, 0x61, 0x63, 0x6b, 0x64, 0x61, 0x74, 0x61, 0x63, 0x61] +
    [0x72, 0x74, 0x20, 0x62, 0x79, 0x20, 0x54, 0x75, 0x72, 0x73] +
    [0x69, 0x20, 0x2d, 0x20, 0x68, 0x74, 0x74, 0x70, 0x3a, 0x2f] +
    [0x2f, 0x68, 0x61, 0x72, 0x6d, 0x6c, 0x65, 0x73, 0x73, 0x6c] +
    [0x69, 0x6f, 0x6e, 0x2e, 0x63, 0x6f, 0x6d, 0x20, 0x2d, 0x20]

  /**
   * The contents of a non-empty C string: stored followed by a NUL byte, it has
   * no NUL of its own, so the terminator is the first NUL after its start.
   */
  predicate IsCString(s: Bytes) {
    |s| > 0 && forall i :: 0 <= i < |s| ==> s[i] != 0
  }

  lemma CreditIsCString()
    ensures IsCString(Credit) && |Credit| == 60
  {
  }

  /** The credit byte the fill leaves at offset `i` of a buffer. */
  function CreditByte(i: nat): bv8 {
    Credit[i % |Credit|]
  }

  /** Reference definition of the fill: `n` bytes cycling through `pat` from its start. */
  function Cycle(pat: Bytes, n: nat): Bytes
    requires |pat| > 0
  {
    seq(n, i requires 0 <= i < n => pat[i % |pat|])
  }

  /**
   * The fill loop as the packer runs it: a cursor (`pStr`) walks the NUL-terminated
   * string, and after each copied byte it is reset to the start when it reaches
   * the terminator.  Exactly `size` bytes are written, byte `i` being the
   * string's byte `i mod |datastr|`.
   */
  method Fill(datastr: Bytes, size: nat) returns (buf: Bytes)
    requires IsCString(datastr)
    ensures |buf| == size
    ensures forall i :: 0 <= i < size ==> buf[i] == datastr[i % |datastr|]
    ensures buf == Cycle(datastr, size)
  {
    var str := datastr + [0];
    var p := 0;
    var n := size;
    ghost var laps := 0;
    buf := [];
    while n > 0
      invariant |buf| + n == size
      invariant 0 <= p < |datastr|
      invariant |buf| == laps * |datastr| + p
      invariant forall i :: 0 <= i < |buf| ==> buf[i] == datastr[i % |datastr|]
    {
      CycleIndex(|datastr|, laps, p);
      buf := buf + [str[p]];
      p := p + 1;
      if str[p] == 0 {
        p := 0;
        laps := laps + 1;
      }
      n := n - 1;
    }
  }

  /** The position `laps * len + p` lies `p` bytes into a lap of length `len`. */
  lemma CycleIndex(len: nat, laps: nat, p: nat)
    requires p < len
    ensures (laps * len + p) % len == p
  {
    var a := laps * len + p;
    var q, r := a / len, a % len;
    assert a == q * len + r;
    if q < laps {
      assert (laps - q) * len == laps * len - q * len;
      LapsApart(laps - q, len);
    } else if q > laps {
      assert (q - laps) * len == q * len - laps * len;
      LapsApart(q - laps, len);
    }
  }

  /** Whole laps apart means at least one full lap apart. */
  lemma LapsApart(d: nat, len: nat)
    requires d >= 1
    ensures d * len >= len
  {
  }
}
