# packdatacart, modelled in Dafny

`packdatacart <outfile> <program> <data1> <data2> ...` builds a TI-99/4A
cartridge image out of one program page and any number of data files. The
image is a sequence of 8192-byte pages:

- page 0 is the first 8192 bytes of the program;
- each data file follows in argument order, cut into 8064-byte slices; each
  slice goes on its own page behind a copy of the program's first 128 bytes
  (its startup header);
- header-only filler pages pad the image to 8192·2^k bytes.

Every buffer starts out filled with a repeating credit string. Every byte that
the program, the header or a data file does not overwrite therefore holds a
credit byte.

The model has four modules:

- `EgoFill` (`egofill.dfy`): the credit string and the `egofill` cyclic fill.
  The fill is a cursor loop proved equal to a reference definition, `Cycle`.
- `Paging` (`paging.dfy`):
  - `fread` and `memcpy`, as `Read` and `Overlay`;
  - the program page, the data pages and the filler pages;
  - the page loop over one data file, as a function;
  - the doubling search for the padded size.
- `Layout` (`layout.dfy`):
  - the whole image, as pages and as bytes;
  - where every program, header, data and padding byte lands;
  - the padded size as the least power-of-two size;
  - a round trip: each data file can be read back out of the image.
- `Packer` (`packer.dfy`): one run of the command.
  - `Run` says what a run produces: exit status, output file, warnings.
  - `Pack` and its helper methods run the source's loops with the `adr`/`bank`
    counters.
  - `Pack` is proved to produce exactly `Run`'s outcome, and `PackOpened`
    exactly `Opened`'s.
  - The loop methods (`EmitFile`, `EmitDataFiles`, `PadToPowerOfTwo`,
    `WriteFiller`) are each proved to write exactly their own pages and to
    advance `adr` and `bank` by one page per page written.

The file system is a map from path to contents; a path missing from the map
cannot be opened for reading. Whether the output file can be created is a
boolean parameter.

One point of reading: the data-file loop (`packdatacart/packdatacart.cpp:91-98`)
stops on a read that returns no bytes, and that read happens before the page is
written. A file whose length is an exact multiple of 8064 therefore gets no
trailing header-only page. After its last full page, `feof` is not yet set, and
the next read returns 0 and breaks out of the loop. An empty file gets no page
at all. This model follows the code: `FilePagesCount` proves the page count is
`ceil(|file| / 8064)`, and `OneFullDataPage` proves it for a single 8064-byte
file.

## Model

| member | source | states |
|---|---|---|
| EgoFill.Fill | packdatacart/packdatacart.cpp:34-40 | the cursor-reset fill writes exactly `size` bytes, byte `i` being the pattern's byte `i mod len`, i.e. it equals the reference cycle `Cycle` |
| EgoFill.CreditIsCString | packdatacart/packdatacart.cpp:32 | the credit string is 60 bytes with no NUL, so the fill's reset test sees the terminator only at its end |
| Paging.Read | packdatacart/packdatacart.cpp:64 | `fread` delivers `min(n, remaining)` bytes, and they are the file's bytes from the read position |
| Paging.Overlay | packdatacart/packdatacart.cpp:93-94 | `memcpy` replaces exactly the bytes from the offset on for the source's length and keeps every other byte |
| Paging.ProgramPage | packdatacart/packdatacart.cpp:63-64 | page 0 holds the program's byte at every offset the program reaches and the credit byte for that offset elsewhere; longer programs are cut at 8192 |
| Packer.LoadProgram | packdatacart/packdatacart.cpp:63-69 | the fill-then-read yields `ProgramPage`, and the too-large warning is raised exactly when the program is longer than 8192 bytes |
| Packer.StartPage | packdatacart/packdatacart.cpp:92-93 | a fresh page buffer starts with the header and holds credit bytes after it |
| Paging.DataPage | packdatacart/packdatacart.cpp:92-94 | a data page is 8192 bytes: the header, then the slice read, then credit bytes for the rest |
| Paging.FilePagesFrom | packdatacart/packdatacart.cpp:91-98 | the page loop from read position `pos` yields one page per 8064 bytes left after `pos`, rounded up, each 8192 bytes and starting with the header |
| Paging.FilePagesCount | packdatacart/packdatacart.cpp:91-98 | a data file yields its length over 8064, rounded up, pages: none when empty, exactly `m` when its length is `m * 8064` |
| Paging.FilePageAt | packdatacart/packdatacart.cpp:91-98 | page `k` of a data file is the header plus the file's `k`-th 8064-byte slice |
| Paging.Grow | packdatacart/packdatacart.cpp:105-108 | the doubling loop ends at a power-of-two size not below the address, and halving it would fall below the address unless no doubling happened |
| Paging.PadTargetLeast | packdatacart/packdatacart.cpp:105-108 | the padded size is the least `8192 * 2^k` that is at least the address |
| Paging.PadTargetOfPower | packdatacart/packdatacart.cpp:105-110 | an address that is already a power-of-two size is its own padded size, so no padding is written |
| Paging.PaddingPages | packdatacart/packdatacart.cpp:110-122 | the padding loop writes `ceil((x - adr) / 8192)` pages when below the target, none otherwise, every one a header-only filler page |
| Layout.FlattenAt | packdatacart/packdatacart.cpp:95 | byte `j` of the `k`-th page written lands at offset `k * 8192 + j` of the output |
| Layout.AllFilePages | packdatacart/packdatacart.cpp:81-102 | the loop over data files yields as many pages as the files' page counts add up to, each beginning with the header |
| Layout.AllFilePagesAt | packdatacart/packdatacart.cpp:81-102 | data file `j`'s pages form one contiguous run, right after the pages of the files before it: every byte of its page `k` is the same byte of the page at that position |
| Layout.PagesShape | packdatacart/packdatacart.cpp:76-122 | every image page is 8192 bytes, page 0 is the program page, every later page starts with page 0's first 128 bytes, and the page count times 8192 is the padded size |
| Layout.ImageSize | packdatacart/packdatacart.cpp:104-122 | the image length is the least power-of-two size holding the program and data pages; no padding page when that end is already such a size |
| Layout.ImageProgramPage | packdatacart/packdatacart.cpp:63-76 | the image's first 8192 bytes are the program's bytes where it reaches and credit bytes elsewhere |
| Layout.ImageHeaders | packdatacart/packdatacart.cpp:93 | the first 128 bytes of every later page equal the image's own first 128 bytes |
| Layout.ImageData | packdatacart/packdatacart.cpp:81-98 | byte `i` past the header of data file `j`'s page `k` is the file's byte `k * 8064 + i - 128` if that exists, the credit byte otherwise |
| Layout.ImagePadding | packdatacart/packdatacart.cpp:115-121 | every byte after the header of a padding page is the credit byte for its offset |
| Layout.UnpackImage | packdatacart/packdatacart.cpp:81-98 | reading 8064 bytes after each header from a file's first page on recovers the data file exactly |
| Layout.OneFullDataPage | packdatacart/packdatacart.cpp:91-98 | a single 8064-byte data file gives a two-page image with no trailing filler page and no padding |
| Packer.FirstMissing | packdatacart/packdatacart.cpp:81-86 | the position of the first data path that cannot be opened: all before it open, it does not |
| Packer.Run | packdatacart/packdatacart.cpp:42-128 | exit status -1 iff fewer than three arguments; 1 iff the output cannot be opened; 2 iff the program cannot be opened; 3 iff some data file cannot be opened; 0 otherwise, with the output being the whole image. On status 3 the output holds page 0 and the pages of the data files before the first unopenable path. No output file is created on -1 or 1; status 2 leaves it empty. The program warning is raised only on statuses 3 and 0, iff the program exceeds 8192 bytes. The size warnings are raised iff padding happened and the padded size exceeds 2 MiB or 32 MiB. |
| Packer.Opened | packdatacart/packdatacart.cpp:63-122 | once output and program are open: status 3 iff some data path is missing, the output then holding page 0 and the pages of the files before it; else 0 with the full image; the program warning iff it exceeds 8192 bytes |
| Packer.EmitFile | packdatacart/packdatacart.cpp:91-98 | the `feof`/`fread` page loop writes exactly the file's pages and advances `adr` by 8192 and `bank` by one per page |
| Packer.EmitDataFiles | packdatacart/packdatacart.cpp:81-102 | the loop over data paths stops at the first unopenable path, having written the pages of exactly the files before it |
| Packer.PadSize | packdatacart/packdatacart.cpp:105-108 | the doubling loop ends exactly at the padded size `PadTarget`, the least power-of-two size not below the address |
| Packer.WriteFiller | packdatacart/packdatacart.cpp:115-121 | the filler loop writes exactly the padding pages and advances the counters by one page each |
| Packer.PadToPowerOfTwo | packdatacart/packdatacart.cpp:104-122 | the doubling loop finds the padded size and the filler loop writes exactly the padding pages, advancing the counters per page |
| Packer.Pack | packdatacart/packdatacart.cpp:42-128 | the procedure produces `Run`'s outcome; whenever data pages were being written, `adr` equals the output length, a multiple of 8192, and `bank` is `0x6002` plus the number of pages after page 0; on success `adr` is a power-of-two size |
| Packer.PadImage | packdatacart/packdatacart.cpp:104-127 | after the last data file, padding yields the whole image at a power-of-two size, the size warnings are raised iff padding happened and the size exceeds 2 MiB or 32 MiB, and the counters match the bytes written |
| Packer.PackOpened | packdatacart/packdatacart.cpp:63-122 | after both opens succeed, the steps produce `Opened`'s outcome with the counters matching the bytes written |

## Left out

- Console output (`printf`): the usage text, the per-file start and end address and bank report, and the "Padding to" and "Finished" lines. The size and program warnings are kept, as booleans on the outcome.
- `errno` values in the open-failure messages; only the exit status is modelled.
- C `int` overflow of `adr`, `bank` and `x`: the counters are unbounded integers. In the source, `x *= 2` (`packdatacart/packdatacart.cpp:107`) overflows once the padded size reaches 2^31 bytes, which any end of data above 2^30 bytes causes. `adr += PAGESIZE` (`packdatacart/packdatacart.cpp:97` and `:120`) overflows once the image reaches 2^31 bytes.
- The exit status of `return -1` is the int -1. How the operating system maps it to a process status is not modelled.
- The output path naming the same file as an input: `fopen(…, "wb")` truncates it before it is read. Inputs are modelled as independent of the output.
- Stream buffering and the unclosed output on exit 3: the pages written so far are taken to reach the file, as they do when returning from `main` flushes open streams.
- `feof` is modelled as "the last read delivered fewer bytes than asked for". That matches a regular file; device or pipe inputs that return short reads before their end are not modelled.
- Read errors other than end of file, and `fclose` failures, are not modelled.
- The global `buf`/`header` arrays are modelled as values passed between steps.
