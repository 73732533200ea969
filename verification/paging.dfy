/**
 * Page framing of the cartridge image: the program page, the 128-byte header
 * it lends to every later page, the pages cut from one data file, and the
 * header-plus-credit pages that pad the image to a power-of-two size.
 */
module Paging {
  import opened EgoFill

  /** Size of one cartridge bank, and of every page written. */
  const PageSize: nat := 8192

  /** Size of the startup header copied to the front of every bank. */
  const HeaderSize: nat := 128

  /** Data bytes a page has room for after the header: PageSize - HeaderSize. */
  const DataSize: nat := 8064

  function Min(a: int, b: int): int {
    if a <= b then a else b
  }

  /** Number of `size`-byte blocks needed to hold `n` bytes. */
  function CeilDiv(n: nat, size: nat): nat
    requires size > 0
  {
    (n + size - 1) / size
  }

  /**
   * `fread(dst, 1, n, f)` on a file whose read position is `pos`: it delivers
   * as many bytes as remain, at most `n`, and its return value is their count.
   */
  function Read(file: Bytes, pos: nat, n: nat): (r: Bytes)
    requires pos <= |file|
    ensures |r| == Min(n, |file| - pos)
    ensures r == file[pos..pos + |r|]
  {
    if pos + n <= |file| then file[pos..pos + n] else file[pos..]
  }

  /** `memcpy(&buf[at], src, |src|)`: `src` replaces bytes `at` onwards, the rest is kept. */
  function Overlay(buf: Bytes, at: nat, src: Bytes): (r: Bytes)
    requires at + |src| <= |buf|
    ensures |r| == |buf|
    ensures forall i :: 0 <= i < |buf| ==> r[i] == if at <= i < at + |src| then src[i - at] else buf[i]
  {
    buf[..at] + src + buf[at + |src|..]
  }

  /** A page buffer freshly filled with the credit string. */
  function BlankPage(): Bytes {
    Cycle(Credit, PageSize)
  }

  /**
   * Page 0: the credit-filled buffer with up to one page of the program read
   * over it.  Offsets the program reaches hold the program's bytes (so a longer
   * program is truncated), every other offset holds the credit byte for it.
   */
  function ProgramPage(prog: Bytes): (page: Bytes)
    ensures |page| == PageSize
    ensures forall i :: 0 <= i < PageSize ==>
      page[i] == if i < |prog| then prog[i] else CreditByte(i)
  {
    CreditIsCString();
    Overlay(BlankPage(), 0, Read(prog, 0, PageSize))
  }

  /** The header saved from page 0 and copied into every later page. */
  function HeaderOf(page0: Bytes): Bytes
    requires |page0| >= HeaderSize
  {
    page0[..HeaderSize]
  }

  /**
   * A page after page 0: the credit-filled buffer, the header over its first
   * 128 bytes, then one read's worth of data.  Whatever the data does not reach
   * keeps its credit byte.
   */
  function DataPage(header: Bytes, chunk: Bytes): (page: Bytes)
    requires |header| == HeaderSize && |chunk| <= DataSize
    ensures |page| == PageSize
    ensures page[..HeaderSize] == header
    ensures page[HeaderSize..HeaderSize + |chunk|] == chunk
    ensures forall i :: HeaderSize + |chunk| <= i < PageSize ==> page[i] == CreditByte(i)
  {
    CreditIsCString();
    Overlay(Overlay(BlankPage(), 0, header), HeaderSize, chunk)
  }

  /** A padding page: the header and the credit string, no data. */
  function FillerPage(header: Bytes): Bytes
    requires |header| == HeaderSize
  {
    DataPage(header, [])
  }

  /** The `k`-th slice of a data file: the bytes that page `k` of that file carries. */
  function Chunk(file: Bytes, k: nat): (c: Bytes)
    ensures |c| <= DataSize
  {
    var lo := Min(k * DataSize, |file|);
    file[lo..Min(lo + DataSize, |file|)]
  }

  /** Number of pages a data file occupies. */
  function PageCount(file: Bytes): nat {
    CeilDiv(|file|, DataSize)
  }

  /**
   * The page loop over one data file, from read position `pos`: read up to 8064
   * bytes; a zero-byte read ends the loop before anything is written, any other
   * read is written out as one page.  Every page begins with the header.
   */
  function FilePagesFrom(header: Bytes, file: Bytes, pos: nat): (pages: seq<Bytes>)
    requires |header| == HeaderSize && pos <= |file|
    ensures |pages| == CeilDiv(|file| - pos, DataSize)
    ensures forall k :: 0 <= k < |pages| ==> |pages[k]| == PageSize && pages[k][..HeaderSize] == header
    decreases |file| - pos
  {
    var chunk := Read(file, pos, DataSize);
    if |chunk| == 0 then []
    else [DataPage(header, chunk)] + FilePagesFrom(header, file, pos + |chunk|)
  }

  /** All pages of one data file, read from its start. */
  function FilePages(header: Bytes, file: Bytes): seq<Bytes>
    requires |header| == HeaderSize
  {
    FilePagesFrom(header, file, 0)
  }

  /**
   * A data file yields exactly `ceil(|file| / 8064)` pages: none for an empty
   * file, and no trailing filler page when its length is a multiple of 8064.
   */
  lemma FilePagesCount(header: Bytes, file: Bytes)
    requires |header| == HeaderSize
    ensures |FilePages(header, file)| == PageCount(file)
    ensures |file| == 0 ==> |FilePages(header, file)| == 0
    ensures forall m: nat :: |file| == m * DataSize ==> |FilePages(header, file)| == m
  {
  }

  /** Page `k` of a data file carries the file's `k`-th 8064-byte slice after the header. */
  lemma FilePageAt(header: Bytes, file: Bytes, k: nat)
    requires |header| == HeaderSize && k < PageCount(file)
    ensures k * DataSize < |file|
    ensures FilePages(header, file)[k] == DataPage(header, Chunk(file, k))
  {
    FilePagesFromAt(header, file, 0, k);
  }

  lemma {:induction false} FilePagesFromAt(header: Bytes, file: Bytes, pos: nat, k: nat)
    requires |header| == HeaderSize && pos <= |file|
    requires k < |FilePagesFrom(header, file, pos)|
    ensures pos + k * DataSize < |file|
    ensures FilePagesFrom(header, file, pos)[k] ==
      DataPage(header, file[pos + k * DataSize..Min(pos + k * DataSize + DataSize, |file|)])
    decreases k
  {
    var chunk := Read(file, pos, DataSize);
    assert |chunk| > 0;
    if k > 0 {
      var rest := FilePagesFrom(header, file, pos + |chunk|);
      assert FilePagesFrom(header, file, pos)[k] == rest[k - 1];
      assert |chunk| == DataSize;
      FilePagesFromAt(header, file, pos + DataSize, k - 1);
      assert pos + DataSize + (k - 1) * DataSize == pos + k * DataSize;
    }
  }

  /** `x` is 8192 times a power of two. */
  predicate IsPagePower(x: nat)
    decreases x
  {
    x == PageSize || (x > PageSize && x % 2 == 0 && IsPagePower(x / 2))
  }

  /** The number of pages in a power-of-two size. */
  function PagesIn(x: nat): (n: nat)
    requires IsPagePower(x)
    ensures n >= 1 && n * PageSize == x
    decreases x
  {
    if x == PageSize then 1
    else
      var half := PagesIn(x / 2);
      assert 2 * half * PageSize == 2 * (half * PageSize);
      2 * half
  }

  /** Two distinct power-of-two sizes are at least a factor of two apart. */
  lemma {:induction false} PagePowerGap(a: nat, b: nat)
    requires IsPagePower(a) && IsPagePower(b) && a < b
    ensures 2 * a <= b
    decreases b
  {
    if a != PageSize {
      PagePowerGap(a / 2, b / 2);
    } else if b / 2 != PageSize {
      // Binding PagesIn brings its postcondition (b / 2 is a whole number of pages) into scope.
      var n := PagesIn(b / 2);
    }
  }

  /**
   * The doubling loop from `x`: it stops at the first power-of-two size that
   * is at least `adr`.
   */
  function Grow(x: nat, adr: nat): (r: nat)
    requires IsPagePower(x)
    ensures IsPagePower(r) && adr <= r && x <= r
    ensures r == x || r / 2 < adr
    decreases if x < adr then adr - x else 0
  {
    if x < adr then Grow(2 * x, adr) else x
  }

  /** The padded size of an image whose end address is `adr`, found by doubling 8192. */
  function PadTarget(adr: nat): nat {
    Grow(PageSize, adr)
  }

  /** The padded size is the least power-of-two size (at least 8192) not below `adr`. */
  lemma PadTargetLeast(adr: nat)
    ensures IsPagePower(PadTarget(adr)) && adr <= PadTarget(adr)
    ensures forall y: nat :: IsPagePower(y) && adr <= y ==> PadTarget(adr) <= y
  {
    var x := PadTarget(adr);
    forall y: nat | IsPagePower(y) && adr <= y
      ensures x <= y
    {
      if y < x {
        PagePowerGap(y, x);
      }
    }
  }

  /** An address that is already a power-of-two size is its own padded size. */
  lemma PadTargetOfPower(adr: nat)
    requires IsPagePower(adr)
    ensures PadTarget(adr) == adr
  {
    PadTargetLeast(adr);
  }

  /**
   * The padding loop: while the address is below the target, write a filler
   * page and advance one page.
   */
  function PaddingPages(header: Bytes, adr: int, x: int): (pages: seq<Bytes>)
    requires |header| == HeaderSize
    ensures adr < x ==> |pages| == CeilDiv(x - adr, PageSize)
    ensures adr >= x ==> |pages| == 0
    ensures forall k :: 0 <= k < |pages| ==> pages[k] == FillerPage(header)
    decreases x - adr
  {
    if adr < x then [FillerPage(header)] + PaddingPages(header, adr + PageSize, x) else []
  }
}
