/**
 * The cartridge image as a whole: the program page, then every data file's
 * pages in argument order, then the padding pages, written back to back.
 */
module Layout {
  import opened EgoFill
  import opened Paging

  /** The bytes written by a sequence of `fwrite`s of whole pages, in order. */
  function Flatten(pages: seq<Bytes>): Bytes {
    if |pages| == 0 then [] else Flatten(pages[..|pages| - 1]) + pages[|pages| - 1]
  }

  predicate AllPages(pages: seq<Bytes>) {
    forall k :: 0 <= k < |pages| ==> |pages[k]| == PageSize
  }

  /** Writing two runs of pages writes their bytes one after the other. */
  lemma {:induction false} FlattenAppend(a: seq<Bytes>, b: seq<Bytes>)
    ensures Flatten(a + b) == Flatten(a) + Flatten(b)
    decreases |b|
  {
    if |b| > 0 {
      assert (a + b)[..|a + b| - 1] == a + b[..|b| - 1];
      FlattenAppend(a, b[..|b| - 1]);
    } else {
      assert a + b == a;
    }
  }

  /** Byte `j` of page `k` lands at offset `k * 8192 + j` of the written stream. */
  lemma {:induction false} FlattenAt(pages: seq<Bytes>, k: nat, j: nat)
    requires AllPages(pages) && k < |pages| && j < PageSize
    ensures |Flatten(pages)| == PageSize * |pages|
    ensures k * PageSize + j < |Flatten(pages)|
    ensures Flatten(pages)[k * PageSize + j] == pages[k][j]
    decreases |pages|
  {
    FlattenLength(pages);
    var n := |pages| - 1;
    var init := pages[..n];
    if k < n {
      FlattenAt(init, k, j);
    } else {
      FlattenLength(init);
      assert k * PageSize == PageSize * n;
    }
  }

  lemma {:induction false} FlattenLength(pages: seq<Bytes>)
    requires AllPages(pages)
    ensures |Flatten(pages)| == PageSize * |pages|
    decreases |pages|
  {
    if |pages| > 0 {
      FlattenLength(pages[..|pages| - 1]);
    }
  }

  /** Total number of pages the data files occupy. */
  function TotalPages(files: seq<Bytes>): nat {
    if |files| == 0 then 0 else TotalPages(files[..|files| - 1]) + PageCount(files[|files| - 1])
  }

  /**
   * The loop over the data files: each file's pages follow the previous file's,
   * a file's pages are never shared with another file, and each begins with the header.
   */
  function AllFilePages(header: Bytes, files: seq<Bytes>): (pages: seq<Bytes>)
    requires |header| == HeaderSize
    ensures |pages| == TotalPages(files)
    ensures forall k :: 0 <= k < |pages| ==> |pages[k]| == PageSize && pages[k][..HeaderSize] == header
  {
    if |files| == 0 then []
    else
      FilePagesCount(header, files[|files| - 1]);
      AllFilePages(header, files[..|files| - 1]) + FilePages(header, files[|files| - 1])
  }

  /**
   * Files appear in argument order and each occupies a contiguous run of pages:
   * page `k` of data file `j` comes right after the pages of the files before it,
   * byte for byte.
   */
  lemma {:induction false} AllFilePagesAt(header: Bytes, files: seq<Bytes>, j: nat, k: nat, i: nat)
    requires |header| == HeaderSize && j < |files| && k < PageCount(files[j]) && i < PageSize
    ensures TotalPages(files[..j]) + k < TotalPages(files)
    ensures AllFilePages(header, files)[TotalPages(files[..j]) + k][i] == FilePages(header, files[j])[k][i]
    decreases |files|
  {
    var n := |files| - 1;
    TotalPagesPrefix(files, j);
    if j < n {
      var init := files[..n];
      assert init[..j] == files[..j];
      AllFilePagesAt(header, init, j, k, i);
      AllFilePagesFront(header, files, TotalPages(files[..j]) + k, i);
    } else {
      AllFilePagesLast(header, files, k, i);
    }
  }

  /** The pages of all files but the last come first, unchanged. */
  lemma AllFilePagesFront(header: Bytes, files: seq<Bytes>, p: nat, i: nat)
    requires |header| == HeaderSize && |files| > 0 && p < TotalPages(files[..|files| - 1]) && i < PageSize
    ensures p < TotalPages(files)
    ensures AllFilePages(header, files)[p][i] == AllFilePages(header, files[..|files| - 1])[p][i]
  {
  }

  /** The last file's pages come right after the pages of the files before it. */
  lemma AllFilePagesLast(header: Bytes, files: seq<Bytes>, k: nat, i: nat)
    requires |header| == HeaderSize && |files| > 0 && k < PageCount(files[|files| - 1]) && i < PageSize
    ensures TotalPages(files[..|files| - 1]) + k < TotalPages(files)
    ensures AllFilePages(header, files)[TotalPages(files[..|files| - 1]) + k][i] ==
      FilePages(header, files[|files| - 1])[k][i]
  {
  }

  /** The files before `j` occupy no more pages than the files up to and including `j`. */
  lemma {:induction false} TotalPagesPrefix(files: seq<Bytes>, j: nat)
    requires j < |files|
    ensures TotalPages(files[..j]) + PageCount(files[j]) <= TotalPages(files)
    decreases |files|
  {
    var n := |files| - 1;
    if j < n {
      assert files[..n][..j] == files[..j];
      TotalPagesPrefix(files[..n], j);
    } else {
      assert files[..n] == files[..j];
    }
  }

  /** Pages 0 up to the end of the data files: the program page and every file's pages. */
  function Body(prog: Bytes, files: seq<Bytes>): seq<Bytes> {
    var page0 := ProgramPage(prog);
    [page0] + AllFilePages(HeaderOf(page0), files)
  }

  /** The address reached once the program page and every data page are written. */
  function EndOfData(files: seq<Bytes>): nat {
    PageSize * (1 + TotalPages(files))
  }

  /** The whole image, as pages: program page, data pages, then padding pages. */
  function Pages(prog: Bytes, files: seq<Bytes>): seq<Bytes> {
    var page0 := ProgramPage(prog);
    var adr := EndOfData(files);
    Body(prog, files) + PaddingPages(HeaderOf(page0), adr, PadTarget(adr))
  }

  /** The cartridge image the packer writes, as bytes. */
  function Image(prog: Bytes, files: seq<Bytes>): Bytes {
    Flatten(Pages(prog, files))
  }

  /**
   * The page structure of the image: every page is 8192 bytes, page 0 is the
   * program page, every later page starts with page 0's first 128 bytes, and the
   * number of pages is the padded size over 8192.
   */
  lemma PagesShape(prog: Bytes, files: seq<Bytes>)
    ensures AllPages(Pages(prog, files))
    ensures |Pages(prog, files)| * PageSize == PadTarget(EndOfData(files))
    ensures Pages(prog, files)[0] == ProgramPage(prog)
    ensures forall k :: 1 <= k < |Pages(prog, files)| ==>
      Pages(prog, files)[k][..HeaderSize] == ProgramPage(prog)[..HeaderSize]
  {
    var pages := Pages(prog, files);
    var adr := EndOfData(files);
    var x := PadTarget(adr);
    var n := PagesIn(x);
    var pad := PaddingPages(HeaderOf(ProgramPage(prog)), adr, x);
    if adr < x {
      var m := n - 1 - TotalPages(files);
      assert x - adr == m * PageSize;
      assert |pad| == m;
    }
    assert |pages| == n;
  }

  /**
   * The image's length is exactly the least `8192 * 2^k` that holds the program
   * page and all data pages; when that end address is already such a size, no
   * padding page is written.
   */
  lemma ImageSize(prog: Bytes, files: seq<Bytes>)
    ensures |Image(prog, files)| == PadTarget(EndOfData(files))
    ensures IsPagePower(|Image(prog, files)|) && EndOfData(files) <= |Image(prog, files)|
    ensures forall y: nat :: IsPagePower(y) && EndOfData(files) <= y ==> |Image(prog, files)| <= y
    ensures IsPagePower(EndOfData(files)) ==> Pages(prog, files) == Body(prog, files)
  {
    PagesShape(prog, files);
    FlattenLength(Pages(prog, files));
    PadTargetLeast(EndOfData(files));
    if IsPagePower(EndOfData(files)) {
      PadTargetOfPower(EndOfData(files));
      assert Pages(prog, files) == Body(prog, files) + [];
    }
  }

  /**
   * The first 8192 bytes of the image: the program's bytes where it reaches,
   * credit bytes elsewhere.  A program of 8192 bytes or more is copied up to
   * offset 8192 and no further.
   */
  lemma ImageProgramPage(prog: Bytes, files: seq<Bytes>, i: nat)
    requires i < PageSize
    ensures i < |Image(prog, files)|
    ensures Image(prog, files)[i] == if i < |prog| then prog[i] else CreditByte(i)
  {
    PagesShape(prog, files);
    FlattenAt(Pages(prog, files), 0, i);
  }

  /** Every page after page 0 begins with the image's own first 128 bytes. */
  lemma ImageHeaders(prog: Bytes, files: seq<Bytes>, k: nat, j: nat)
    requires 1 <= k < |Image(prog, files)| / PageSize && j < HeaderSize
    ensures k * PageSize + j < |Image(prog, files)|
    ensures Image(prog, files)[k * PageSize + j] == Image(prog, files)[j]
  {
    var pages := Pages(prog, files);
    PagesShape(prog, files);
    FlattenLength(pages);
    FlattenAt(pages, k, j);
    FlattenAt(pages, 0, j);
    assert pages[k][..HeaderSize][j] == pages[0][..HeaderSize][j];
  }

  /**
   * Page `k` of data file `j` is image page `1 + (pages of files before j) + k`;
   * after the header it holds the file's bytes from `k * 8064` on, as far as
   * the file reaches, and credit bytes after them.
   */
  lemma ImageData(prog: Bytes, files: seq<Bytes>, j: nat, k: nat, i: nat)
    requires j < |files| && k < PageCount(files[j])
    requires HeaderSize <= i < PageSize
    ensures (1 + TotalPages(files[..j]) + k) * PageSize + i < |Image(prog, files)|
    ensures Image(prog, files)[(1 + TotalPages(files[..j]) + k) * PageSize + i] ==
      if k * DataSize + (i - HeaderSize) < |files[j]| then files[j][k * DataSize + (i - HeaderSize)]
      else CreditByte(i)
  {
    PagesDataAt(prog, files, j, k, i);
    ImagePageAt(prog, files, 1 + TotalPages(files[..j]) + k, i);
  }

  /** Byte `i` past the header of page `k` of data file `j`, as an image page. */
  lemma PagesDataAt(prog: Bytes, files: seq<Bytes>, j: nat, k: nat, i: nat)
    requires j < |files| && k < PageCount(files[j])
    requires HeaderSize <= i < PageSize
    ensures 1 + TotalPages(files[..j]) + k < |Pages(prog, files)|
    ensures Pages(prog, files)[1 + TotalPages(files[..j]) + k][i] ==
      if k * DataSize + (i - HeaderSize) < |files[j]| then files[j][k * DataSize + (i - HeaderSize)]
      else CreditByte(i)
  {
    var header := HeaderOf(ProgramPage(prog));
    PagesFileAt(prog, files, j, k, i);
    FilePageAt(header, files[j], k);
    DataPageAt(header, files[j], k, i);
  }

  /** Byte `i` of page `k` of data file `j` is byte `i` of image page `1 + (pages of the files before j) + k`. */
  lemma PagesFileAt(prog: Bytes, files: seq<Bytes>, j: nat, k: nat, i: nat)
    requires j < |files| && k < PageCount(files[j]) && i < PageSize
    ensures 1 + TotalPages(files[..j]) + k < |Pages(prog, files)|
    ensures Pages(prog, files)[1 + TotalPages(files[..j]) + k][i] ==
      FilePages(HeaderOf(ProgramPage(prog)), files[j])[k][i]
  {
    var header := HeaderOf(ProgramPage(prog));
    AllFilePagesAt(header, files, j, k, i);
    assert Body(prog, files)[1 + TotalPages(files[..j]) + k] == AllFilePages(header, files)[TotalPages(files[..j]) + k];
    assert Pages(prog, files)[1 + TotalPages(files[..j]) + k] == Body(prog, files)[1 + TotalPages(files[..j]) + k];
  }

  /** Byte `i` of image page `p` is at offset `p * 8192 + i`. */
  lemma ImagePageAt(prog: Bytes, files: seq<Bytes>, p: nat, i: nat)
    requires p < |Pages(prog, files)| && i < PageSize
    ensures p * PageSize + i < |Image(prog, files)|
    ensures Image(prog, files)[p * PageSize + i] == Pages(prog, files)[p][i]
  {
    PagesShape(prog, files);
    FlattenAt(Pages(prog, files), p, i);
  }

  /** Byte `i` (past the header) of page `k` of a data file. */
  lemma DataPageAt(header: Bytes, file: Bytes, k: nat, i: nat)
    requires |header| == HeaderSize && k < PageCount(file)
    requires HeaderSize <= i < PageSize
    ensures DataPage(header, Chunk(file, k))[i] ==
      if k * DataSize + (i - HeaderSize) < |file| then file[k * DataSize + (i - HeaderSize)]
      else CreditByte(i)
  {
  }

  /** Pages after the data files hold only the header and credit bytes. */
  lemma ImagePadding(prog: Bytes, files: seq<Bytes>, p: nat, i: nat)
    requires 1 + TotalPages(files) <= p < |Image(prog, files)| / PageSize
    requires HeaderSize <= i < PageSize
    ensures p * PageSize + i < |Image(prog, files)|
    ensures Image(prog, files)[p * PageSize + i] == CreditByte(i)
  {
    var pages := Pages(prog, files);
    var body := Body(prog, files);
    var header := HeaderOf(ProgramPage(prog));
    PagesShape(prog, files);
    FlattenLength(pages);
    FlattenAt(pages, p, i);
    var adr := EndOfData(files);
    assert pages[p] == PaddingPages(header, adr, PadTarget(adr))[p - |body|];
  }

  /**
   * Where byte `t` of a data file lies in an image whose page `start` is the
   * file's first page: page `t / 8064` of the file, after that page's header.
   */
  function DataOffset(start: nat, t: nat): nat {
    (start + t / DataSize) * PageSize + HeaderSize + t % DataSize
  }

  /** Byte `t` of a `len`-byte file is carried by one of its pages, at offset `t mod 8064` of the data. */
  lemma DataSlot(len: nat, t: nat)
    requires t < len
    ensures t / DataSize < CeilDiv(len, DataSize)
    ensures (t / DataSize) * DataSize + t % DataSize == t
  {
  }

  /** A `len`-byte file starting at page `start` lies wholly before page `start + ceil(len / 8064)`. */
  lemma DataOffsetBound(start: nat, len: nat, t: nat)
    requires t < len
    ensures DataOffset(start, t) < (start + CeilDiv(len, DataSize)) * PageSize
  {
  }

  /**
   * Reading a data file back out of an image: its `len` bytes, taken 8064 at a
   * time from after the header of each page from page `start` on.
   */
  function Unpack(image: Bytes, start: nat, len: nat): (r: Bytes)
    requires (start + CeilDiv(len, DataSize)) * PageSize <= |image|
    ensures |r| == len
  {
    seq(len, t requires 0 <= t < len => DataOffsetBound(start, len, t); image[DataOffset(start, t)])
  }

  /**
   * Packing loses nothing: each data file can be read back out of the image,
   * starting at the page after the program page and the earlier files' pages.
   */
  lemma UnpackImage(prog: Bytes, files: seq<Bytes>, j: nat)
    requires j < |files|
    ensures (1 + TotalPages(files[..j]) + PageCount(files[j])) * PageSize <= |Image(prog, files)|
    ensures Unpack(Image(prog, files), 1 + TotalPages(files[..j]), |files[j]|) == files[j]
  {
    var image := Image(prog, files);
    var start := 1 + TotalPages(files[..j]);
    var file := files[j];
    TotalPagesPrefix(files, j);
    ImageSize(prog, files);
    var r := Unpack(image, start, |file|);
    forall t | 0 <= t < |file|
      ensures r[t] == file[t]
    {
      DataSlot(|file|, t);
      ImageData(prog, files, j, t / DataSize, HeaderSize + t % DataSize);
    }
  }

  /**
   * A single data file of exactly 8064 bytes fills exactly one page, so the
   * image is two pages long and has no padding page.
   */
  lemma OneFullDataPage(prog: Bytes, file: Bytes)
    requires |file| == DataSize
    ensures |Image(prog, [file])| == 2 * PageSize
    ensures Pages(prog, [file]) == Body(prog, [file])
  {
    assert [file][..0] == [];
    assert TotalPages([file]) == 1;
    assert IsPagePower(2 * PageSize);
    ImageSize(prog, [file]);
  }
}
