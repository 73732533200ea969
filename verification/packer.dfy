/**
 * One run of the packer: `packdatacart <outfile> <program> <data1> ...`.
 * The file system is a map from path to contents (a missing path cannot be
 * opened for reading); whether the output file can be opened for writing is a
 * flag.  The run is given twice: `Run` says what it produces, `Pack` is the
 * loop-by-loop procedure with its address and bank counters.
 */
module Packer {
  import opened EgoFill
  import opened Paging
  import opened Layout

  datatype Option<T> = None | Some(value: T)

  /** Exit statuses. */
  const UsageError: int := -1
  const OutputOpenFailed: int := 1
  const ProgramOpenFailed: int := 2
  const DataOpenFailed: int := 3
  const Success: int := 0

  /** Bank-select value reported for the first data page. */
  const FirstBank: int := 0x6002

  /** Largest cartridge board so far, and the bank-switch addressing limit. */
  const BoardLimit: nat := 2 * 1024 * 1024
  const BankSwitchLimit: nat := 32 * 1024 * 1024

  /**
   * What a run leaves behind: its exit status, the output file's contents
   * (`None` when the file was never created) and the warnings it printed.
   */
  datatype Outcome = Outcome(
    status: int,
    output: Option<Bytes>,
    programTooLarge: bool,
    overBoardLimit: bool,
    overBankSwitchLimit: bool)

  /** The position of the first path that cannot be opened, or `|names|` when all can. */
  function FirstMissing(names: seq<string>, fs: map<string, Bytes>): (m: nat)
    ensures m <= |names|
    ensures forall i :: 0 <= i < m ==> names[i] in fs
    ensures m < |names| ==> names[m] !in fs
  {
    if |names| == 0 || names[0] !in fs then 0 else 1 + FirstMissing(names[1..], fs)
  }

  /** The contents of the named files, in order. */
  function Contents(names: seq<string>, fs: map<string, Bytes>): (files: seq<Bytes>)
    requires forall i :: 0 <= i < |names| ==> names[i] in fs
  {
    seq(|names|, i requires 0 <= i < |names| => fs[names[i]])
  }

  /**
   * The result of a run with positional arguments `args` (`argv[1..]`).
   * Fewer than three arguments is a usage error; otherwise the output, the
   * program and the data files are opened in that order and the first that
   * fails decides the status.  A run that gets through every data file
   * writes the whole padded image.
   */
  function Run(args: seq<string>, fs: map<string, Bytes>, outputOpens: bool): (o: Outcome)
    ensures o.status == UsageError <==> |args| < 3
    ensures o.status == OutputOpenFailed <==> |args| >= 3 && !outputOpens
    ensures o.status == ProgramOpenFailed <==> |args| >= 3 && outputOpens && args[1] !in fs
    ensures o.status == DataOpenFailed <==>
      |args| >= 3 && outputOpens && args[1] in fs && exists i :: 2 <= i < |args| && args[i] !in fs
    ensures o.status == Success <==>
      |args| >= 3 && outputOpens && args[1] in fs && forall i :: 2 <= i < |args| ==> args[i] in fs
    ensures o.status == Success ==> o.output == Some(Image(fs[args[1]], Contents(args[2..], fs)))
    ensures o.status == Success || o.status == DataOpenFailed ==>
      o.programTooLarge == (|fs[args[1]]| > PageSize)
    ensures o.status == UsageError || o.status == OutputOpenFailed || o.status == ProgramOpenFailed ==>
      !o.programTooLarge
    ensures o.status == UsageError || o.status == OutputOpenFailed ==> o.output == None
    ensures o.status == ProgramOpenFailed ==> o.output == Some([])
    ensures o.status == DataOpenFailed ==>
      var names := args[2..];
      o.output == Some(Flatten(Body(fs[args[1]], Contents(names[..FirstMissing(names, fs)], fs))))
    ensures o.status == Success ==>
      var files := Contents(args[2..], fs);
      var size := |Image(fs[args[1]], files)|;
      && (o.overBoardLimit <==> EndOfData(files) < size && size > BoardLimit)
      && (o.overBankSwitchLimit <==> EndOfData(files) < size && size > BankSwitchLimit)
    ensures o.status != Success ==> !o.overBoardLimit && !o.overBankSwitchLimit
  {
    if |args| < 3 then Outcome(UsageError, None, false, false, false)
    else if !outputOpens then Outcome(OutputOpenFailed, None, false, false, false)
    else if args[1] !in fs then Outcome(ProgramOpenFailed, Some([]), false, false, false)
    else Opened(fs[args[1]], args[2..], fs)
  }

  /**
   * The rest of a run once the output and the program are open: the data
   * files are read in order until one cannot be opened; if none is missing
   * the image is padded and the size warnings are decided.
   */
  function Opened(prog: Bytes, names: seq<string>, fs: map<string, Bytes>): (o: Outcome)
    ensures o.status == DataOpenFailed <==> exists i :: 0 <= i < |names| && names[i] !in fs
    ensures o.status == Success <==> forall i :: 0 <= i < |names| ==> names[i] in fs
    ensures o.status == Success ==> o.output == Some(Image(prog, Contents(names, fs)))
    ensures o.status == DataOpenFailed ==>
      o.output == Some(Flatten(Body(prog, Contents(names[..FirstMissing(names, fs)], fs))))
    ensures o.programTooLarge == (|prog| > PageSize)
    ensures o.status == Success ==>
      var files := Contents(names, fs);
      var size := |Image(prog, files)|;
      && (o.overBoardLimit <==> EndOfData(files) < size && size > BoardLimit)
      && (o.overBankSwitchLimit <==> EndOfData(files) < size && size > BankSwitchLimit)
    ensures o.status != Success ==> !o.overBoardLimit && !o.overBankSwitchLimit
  {
    var m := FirstMissing(names, fs);
    var files := Contents(names[..m], fs);
    if m < |names| then
      Outcome(DataOpenFailed, Some(Flatten(Body(prog, files))), |prog| > PageSize, false, false)
    else
      assert names[..m] == names;
      ImageSize(prog, files);
      var adr := EndOfData(files);
      var x := PadTarget(adr);
      Outcome(Success, Some(Image(prog, files)), |prog| > PageSize,
              adr < x && x > BoardLimit, adr < x && x > BankSwitchLimit)
  }

  /**
   * Loading the program page: fill the buffer with the credit string, read up
   * to one page over it, then try one more byte; the warning is printed when
   * that byte exists.
   */
  method LoadProgram(prog: Bytes) returns (page: Bytes, tooLarge: bool)
    ensures page == ProgramPage(prog)
    ensures tooLarge <==> |prog| > PageSize
  {
    CreditIsCString();
    page := Fill(Credit, PageSize);
    var got := Read(prog, 0, PageSize);
    page := Overlay(page, 0, got);
    var atEnd := |got| == |prog|;
    tooLarge := !atEnd;
  }

  /**
   * A fresh page buffer: filled with the credit string, the header copied
   * over its first 128 bytes.
   */
  method StartPage(header: Bytes) returns (buf: Bytes)
    requires |header| == HeaderSize
    ensures |buf| == PageSize && buf[..HeaderSize] == header
    ensures forall i :: HeaderSize <= i < PageSize ==> buf[i] == CreditByte(i)
    ensures buf == Overlay(BlankPage(), 0, header)
  {
    CreditIsCString();
    buf := Fill(Credit, PageSize);
    buf := Overlay(buf, 0, header);
  }

  /**
   * The page loop over one open data file: the bytes it writes and the
   * counters after it.  Each page written advances the address by one page
   * and the bank by one.
   */
  method EmitFile(header: Bytes, file: Bytes, adr: int, bank: int)
    returns (bytes: Bytes, adr': int, bank': int)
    requires |header| == HeaderSize
    ensures bytes == Flatten(FilePages(header, file))
    ensures adr' == adr + PageSize * PageCount(file)
    ensures bank' == bank + PageCount(file)
  {
    bytes, adr', bank' := [], adr, bank;
    var pos := 0;
    var eof := false;
    ghost var written: seq<Bytes> := [];
    while !eof
      invariant pos <= |file|
      invariant eof ==> pos == |file|
      invariant FilePages(header, file) == written + FilePagesFrom(header, file, pos)
      invariant bytes == Flatten(written)
      invariant adr' == adr + PageSize * |written|
      invariant bank' == bank + |written|
      decreases |file| - pos
    {
      var buf := StartPage(header);
      var got := Read(file, pos, DataSize);
      if |got| == 0 {
        break;
      }
      buf := Overlay(buf, HeaderSize, got);
      PageStep(header, file, pos, written);
      bytes := bytes + buf;
      written := written + [buf];
      bank' := bank' + 1;
      adr' := adr' + PageSize;
      pos := pos + |got|;
      eof := |got| < DataSize;
    }
    FilePagesDone(header, file, pos, written);
  }

  /** One turn of the page loop: the page built is the next page, and writing it appends its bytes. */
  lemma PageStep(header: Bytes, file: Bytes, pos: nat, written: seq<Bytes>)
    requires |header| == HeaderSize && pos < |file|
    ensures var got := Read(file, pos, DataSize);
      var page := Overlay(Overlay(BlankPage(), 0, header), HeaderSize, got);
      && written + FilePagesFrom(header, file, pos) == (written + [page]) + FilePagesFrom(header, file, pos + |got|)
      && Flatten(written + [page]) == Flatten(written) + page
  {
  }

  /** Once the read position is at the end, every page of the file has been written. */
  lemma FilePagesDone(header: Bytes, file: Bytes, pos: nat, written: seq<Bytes>)
    requires |header| == HeaderSize && pos == |file|
    requires FilePages(header, file) == written + FilePagesFrom(header, file, pos)
    ensures FilePages(header, file) == written
  {
  }

  /**
   * The loop over the data file arguments: it stops at the first path that
   * cannot be opened, having written the pages of every file before it.
   */
  method EmitDataFiles(header: Bytes, names: seq<string>, fs: map<string, Bytes>, adr: int, bank: int)
    returns (bytes: Bytes, adr': int, bank': int, m: nat)
    requires |header| == HeaderSize
    ensures m == FirstMissing(names, fs)
    ensures bytes == Flatten(AllFilePages(header, Contents(names[..m], fs)))
    ensures adr' == adr + PageSize * TotalPages(Contents(names[..m], fs))
    ensures bank' == bank + TotalPages(Contents(names[..m], fs))
  {
    bytes, adr', bank' := [], adr, bank;
    m := 0;
    ghost var files: seq<Bytes> := [];
    while m < |names| && names[m] in fs
      invariant m <= |names| && |files| == m
      invariant forall i :: 0 <= i < m ==> names[i] in fs && files[i] == fs[names[i]]
      invariant bytes == Flatten(AllFilePages(header, files))
      invariant adr' == adr + PageSize * TotalPages(files)
      invariant bank' == bank + TotalPages(files)
    {
      var file := fs[names[m]];
      var more;
      more, adr', bank' := EmitFile(header, file, adr', bank');
      FileStep(header, files, file);
      bytes := bytes + more;
      files := files + [file];
      m := m + 1;
    }
    FirstMissingAt(names, fs, m);
    ContentsPrefix(names, fs, files);
  }

  /** Appending one more data file appends its pages and its page count. */
  lemma FileStep(header: Bytes, files: seq<Bytes>, file: Bytes)
    requires |header| == HeaderSize
    ensures Flatten(AllFilePages(header, files + [file])) ==
      Flatten(AllFilePages(header, files)) + Flatten(FilePages(header, file))
    ensures TotalPages(files + [file]) == TotalPages(files) + PageCount(file)
  {
    assert (files + [file])[..|files|] == files;
    FlattenAppend(AllFilePages(header, files), FilePages(header, file));
  }

  /** A position where every earlier path opens and this one does not is the first missing one. */
  lemma FirstMissingAt(names: seq<string>, fs: map<string, Bytes>, m: nat)
    requires m <= |names|
    requires forall i :: 0 <= i < m ==> names[i] in fs
    requires m < |names| ==> names[m] !in fs
    ensures FirstMissing(names, fs) == m
  {
  }

  /** Files read one by one from the first paths are those paths' contents. */
  lemma ContentsPrefix(names: seq<string>, fs: map<string, Bytes>, files: seq<Bytes>)
    requires |files| <= |names|
    requires forall i :: 0 <= i < |files| ==> names[i] in fs && files[i] == fs[names[i]]
    ensures files == Contents(names[..|files|], fs)
  {
  }

  /**
   * Padding: double 8192 until it reaches the address, then, if it went past,
   * write filler pages (the header and the credit string) up to it.
   */
  method PadToPowerOfTwo(header: Bytes, adr: nat, bank: int)
    returns (bytes: Bytes, adr': nat, bank': int, x: nat)
    requires |header| == HeaderSize
    ensures x == PadTarget(adr)
    ensures bytes == Flatten(PaddingPages(header, adr, x))
    ensures adr' == adr + PageSize * |PaddingPages(header, adr, x)|
    ensures bank' == bank + |PaddingPages(header, adr, x)|
  {
    x := PadSize(adr);
    if x > adr {
      bytes, adr', bank' := WriteFiller(header, adr, x, bank);
    } else {
      bytes, adr', bank' := [], adr, bank;
      assert PaddingPages(header, adr, x) == [];
    }
  }

  /** The doubling loop: it ends at the padded size of the address. */
  method PadSize(adr: nat) returns (x: nat)
    ensures x == PadTarget(adr)
  {
    x := PageSize;
    while x < adr
      invariant IsPagePower(x)
      invariant Grow(x, adr) == PadTarget(adr)
      decreases adr - x
    {
      Doubling(x, adr);
      x := 2 * x;
    }
  }

  /** One turn of the doubling loop keeps a power-of-two size with the same end point. */
  lemma Doubling(x: nat, adr: nat)
    requires IsPagePower(x) && x < adr
    ensures IsPagePower(2 * x) && Grow(2 * x, adr) == Grow(x, adr)
  {
  }

  /** The filler loop: one header-only page per turn until the address reaches `x`. */
  method WriteFiller(header: Bytes, adr: nat, x: nat, bank: int)
    returns (bytes: Bytes, adr': nat, bank': int)
    requires |header| == HeaderSize
    ensures bytes == Flatten(PaddingPages(header, adr, x))
    ensures adr' == adr + PageSize * |PaddingPages(header, adr, x)|
    ensures bank' == bank + |PaddingPages(header, adr, x)|
  {
    bytes, adr', bank' := [], adr, bank;
    var buf := StartPage(header);
    ghost var written: seq<Bytes> := [];
    while adr' < x
      invariant PaddingPages(header, adr, x) == written + PaddingPages(header, adr', x)
      invariant bytes == Flatten(written)
      invariant adr' == adr + PageSize * |written|
      invariant bank' == bank + |written|
      decreases x - adr'
    {
      FillerStep(header, written, adr', x);
      bytes := bytes + buf;
      written := written + [buf];
      bank' := bank' + 1;
      adr' := adr' + PageSize;
    }
    PaddingDone(header, written, adr, adr', x);
  }

  /** One turn of the padding loop: the buffer is the next filler page, and writing it appends its bytes. */
  lemma FillerStep(header: Bytes, written: seq<Bytes>, adr: int, x: int)
    requires |header| == HeaderSize && adr < x
    ensures var page := Overlay(BlankPage(), 0, header);
      && written + PaddingPages(header, adr, x) == (written + [page]) + PaddingPages(header, adr + PageSize, x)
      && Flatten(written + [page]) == Flatten(written) + page
  {
    var page := Overlay(BlankPage(), 0, header);
    assert Overlay(page, HeaderSize, []) == page;
    assert page == FillerPage(header);
    assert (written + [page])[..|written|] == written;
  }

  /** Once the address reaches the target, every padding page has been written. */
  lemma PaddingDone(header: Bytes, written: seq<Bytes>, adr: int, adr': int, x: int)
    requires |header| == HeaderSize && adr' >= x
    requires PaddingPages(header, adr, x) == written + PaddingPages(header, adr', x)
    ensures PaddingPages(header, adr, x) == written
  {
  }

  /**
   * The packer's `main`, step by step.  It produces exactly `Run`'s outcome,
   * and once counting has started the address counter equals the number of
   * bytes written while the bank counter is the first bank plus the number of
   * pages written after page 0.
   */
  method Pack(args: seq<string>, fs: map<string, Bytes>, outputOpens: bool)
    returns (o: Outcome, adr: int, bank: int)
    ensures o == Run(args, fs, outputOpens)
    ensures o.status == Success || o.status == DataOpenFailed ==>
      && o.output.Some?
      && adr == |o.output.value|
      && adr % PageSize == 0
      && bank == FirstBank + adr / PageSize - 1
    ensures o.status == Success ==> IsPagePower(adr)
  {
    adr, bank := 0, 0;
    if |args| < 3 {
      return Outcome(UsageError, None, false, false, false), adr, bank;
    }
    if !outputOpens {
      return Outcome(OutputOpenFailed, None, false, false, false), adr, bank;
    }
    if args[1] !in fs {
      return Outcome(ProgramOpenFailed, Some([]), false, false, false), adr, bank;
    }
    o, adr, bank := PackOpened(fs[args[1]], args[2..], fs);
  }

  /**
   * Everything after the output and the program are open: load page 0, write
   * each data file's pages until one cannot be opened, then pad.
   */
  method PackOpened(prog: Bytes, names: seq<string>, fs: map<string, Bytes>)
    returns (o: Outcome, adr: int, bank: int)
    ensures o == Opened(prog, names, fs)
    ensures o.status == Success || o.status == DataOpenFailed
    ensures o.output.Some? && adr == |o.output.value|
    ensures adr % PageSize == 0 && bank == FirstBank + adr / PageSize - 1
    ensures o.status == Success ==> IsPagePower(adr)
  {
    var page0, tooLarge := LoadProgram(prog);
    var header := page0[..HeaderSize];
    bank := FirstBank;
    adr := PageSize;
    var data, m;
    data, adr, bank, m := EmitDataFiles(header, names, fs, adr, bank);
    var out := page0 + data;
    ghost var files := Contents(names[..m], fs);
    assert header == HeaderOf(ProgramPage(prog));
    BodyBytes(prog, files);
    assert out == Flatten(Body(prog, files));
    if m < |names| {
      o := Outcome(DataOpenFailed, Some(out), tooLarge, false, false);
      OpenedStops(prog, names, fs);
      WholePages(adr, bank, 1 + TotalPages(files));
      return o, adr, bank;
    }
    o, adr, bank := PadImage(prog, files, header, out, adr, bank, tooLarge);
    OpenedCompletes(prog, names, fs);
    assert names[..m] == names[..|names|];
  }

  /**
   * The end of a run that got through every data file: pad the image to its
   * power-of-two size and decide the size warnings.
   */
  method PadImage(prog: Bytes, ghost files: seq<Bytes>, header: Bytes, body: Bytes, adr: int, bank: int, tooLarge: bool)
    returns (o: Outcome, adr': int, bank': int)
    requires header == HeaderOf(ProgramPage(prog))
    requires body == Flatten(Body(prog, files))
    requires adr == EndOfData(files) && bank == FirstBank + TotalPages(files)
    ensures var x := PadTarget(adr);
      o == Outcome(Success, Some(Image(prog, files)), tooLarge,
                   adr < x && x > BoardLimit, adr < x && x > BankSwitchLimit)
    ensures adr' == |Image(prog, files)| && IsPagePower(adr')
    ensures adr' % PageSize == 0 && bank' == FirstBank + adr' / PageSize - 1
  {
    var padding, x;
    padding, adr', bank', x := PadToPowerOfTwo(header, adr, bank);
    ImageBytes(prog, files);
    BodyBytes(prog, files);
    ghost var pad := PaddingPages(header, adr, x);
    PaddingBytes(header, adr, x);
    var out := body + padding;
    assert out == Image(prog, files);
    o := Outcome(Success, Some(out), tooLarge, x > adr && x > BoardLimit, x > adr && x > BankSwitchLimit);
    WholePages(adr', bank', 1 + TotalPages(files) + |pad|);
  }

  /** Counters that have advanced by `n` pages from page 0 agree with the bytes written. */
  lemma WholePages(adr: int, bank: int, n: nat)
    requires adr == PageSize * n && bank == FirstBank + n - 1
    ensures adr % PageSize == 0 && bank == FirstBank + adr / PageSize - 1
  {
  }

  /** Every padding page is a whole page. */
  lemma PaddingBytes(header: Bytes, adr: int, x: int)
    requires |header| == HeaderSize
    ensures |Flatten(PaddingPages(header, adr, x))| == PageSize * |PaddingPages(header, adr, x)|
  {
    FlattenLength(PaddingPages(header, adr, x));
  }

  /** The program page and data pages, as bytes: page 0 followed by every data page. */
  lemma BodyBytes(prog: Bytes, files: seq<Bytes>)
    ensures Flatten(Body(prog, files)) ==
      ProgramPage(prog) + Flatten(AllFilePages(HeaderOf(ProgramPage(prog)), files))
    ensures |Flatten(Body(prog, files))| == EndOfData(files)
  {
    var page0 := ProgramPage(prog);
    FlattenAppend([page0], AllFilePages(HeaderOf(page0), files));
    assert Flatten([page0]) == page0 by {
      assert [page0][..0] == [];
    }
    FlattenLength(Body(prog, files));
  }

  /** The image as bytes: the program and data pages, then the padding pages. */
  lemma ImageBytes(prog: Bytes, files: seq<Bytes>)
    ensures var adr := EndOfData(files);
      Image(prog, files) ==
        Flatten(Body(prog, files)) + Flatten(PaddingPages(HeaderOf(ProgramPage(prog)), adr, PadTarget(adr)))
    ensures |Image(prog, files)| == PadTarget(EndOfData(files))
    ensures IsPagePower(|Image(prog, files)|)
  {
    var adr := EndOfData(files);
    FlattenAppend(Body(prog, files), PaddingPages(HeaderOf(ProgramPage(prog)), adr, PadTarget(adr)));
    ImageSize(prog, files);
  }

  /** `Opened` when a data file cannot be opened. */
  lemma OpenedStops(prog: Bytes, names: seq<string>, fs: map<string, Bytes>)
    requires FirstMissing(names, fs) < |names|
    ensures var files := Contents(names[..FirstMissing(names, fs)], fs);
      Opened(prog, names, fs) ==
        Outcome(DataOpenFailed, Some(Flatten(Body(prog, files))), |prog| > PageSize, false, false)
  {
  }

  /** `Opened` when every data file opens. */
  lemma OpenedCompletes(prog: Bytes, names: seq<string>, fs: map<string, Bytes>)
    requires FirstMissing(names, fs) == |names|
    ensures var files := Contents(names[..|names|], fs);
      var adr := EndOfData(files);
      var x := PadTarget(adr);
      Opened(prog, names, fs) ==
        Outcome(Success, Some(Image(prog, files)), |prog| > PageSize,
                adr < x && x > BoardLimit, adr < x && x > BankSwitchLimit)
  {
  }
}
