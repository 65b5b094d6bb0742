# pngCompress core, modelled in Dafny

pngCompress is a desktop image compressor. Its Rust back end
(`src-tauri/src/main.rs`) offers two commands to the web front end:

- `scan_paths` turns the paths a user dropped into a flat list of image files. Directories are walked recursively. Only regular files whose lower-cased extension is `jpg`, `jpeg` or `png` are kept.
- `compress_files` compresses every listed file in place on a thread pool. It emits one `compression-progress` event per finished file, numbered by a shared counter.

The per-file work is `process_single_file`:

1. Stat the file.
2. Dispatch on the lower-cased extension:
   - PNG in "lossy" mode: quantize with `imagequant`, encode an indexed PNG, then optimize it with `oxipng`, with two fallbacks.
   - PNG in any other mode: optimize losslessly with `oxipng`.
   - JPEG: re-encode with the `image` crate, at quality 100 in "lossless" mode.
3. Write the result back only when it is strictly smaller than the original.

A failed `fs::metadata`, `fs::read`, `image::open`, JPEG encoding, lossless `oxipng` run or `fs::write` ends the file with a result built by `create_error_result`, as does an extension off the allow-list. Failures inside the lossy PNG path fall back instead:

- a failed quantization or indexed encoding falls back to a default `oxipng` run on the input;
- a failed `oxipng` run on the quantized PNG keeps the quantized PNG.

The project has six modules:

- `Common`: bytes, `Result`, `Option`.
- `Paths`: Rust's `Path::extension` on Unix paths, ASCII lower-casing and the extension allow-list.
- `Scan`: `scan_paths`, over a filesystem given as a map from paths to trees.
- `Palette`: the palette loop that builds the PLTE and tRNS chunks.
- `Process`: `process_single_file` and `create_error_result`. Every external call is given as an outcome or a function in an `Env`.
- `Progress`: `compress_files`. The thread pool's completion order is a parameter.

The imperative members are each proved equal to a specification function:

- `Scan.ScanPaths`, `Scan.PushWalkedFiles`, `Palette.SplitPalette`, `Process.ProcessSingleFile` and `Progress.CompressFiles` are methods with loops or step-by-step branches.
- The matching functions are `Scan.ScanSpec`, `Palette.PlteOf` and `Palette.TrnsOf`, `Process.Process`, and `Progress.Events`.
- The lemmas state what the source promises about those functions.

Three facts about `main.rs` shape the model:

- A file with an extension off the allow-list is reported as the error "Unsupported format"; there is no separate "skipped" status.
- `scan_paths` does not deduplicate: a path named twice, or reached twice, is listed twice.
- `compress_files` runs on rayon's global pool and sets no bound of its own on how many files are processed at once.

## Model

| member | source | states |
|---|---|---|
| Scan.ScanPaths | src-tauri/src/main.rs:37-69 | the returned list is each input's contribution in input order, as `ScanSpec` defines it |
| Scan.PushInput | src-tauri/src/main.rs:41-66 | one input appends its walked supported files if it is a directory, itself if it is a supported regular file, and nothing otherwise |
| Scan.PushWalkedFiles | src-tauri/src/main.rs:44-56 | the inner loop appends, in walk order, the path of every successful regular-file entry with a supported extension |
| Scan.PushIfKept | src-tauri/src/main.rs:45-55 | one walk item is pushed exactly when it is a successful regular-file entry whose lowered extension is allowed |
| Scan.ScanOnlySupported | src-tauri/src/main.rs:39-65 | every returned path has a lowered extension of `jpg`, `jpeg` or `png` |
| Scan.ScanAppend | src-tauri/src/main.rs:41-68 | scanning `a + b` returns the scan of `a` followed by the scan of `b`, so input order is kept |
| Scan.RepeatedFileListedTwice | src-tauri/src/main.rs:57-65 | a supported file named twice is listed twice: nothing is deduplicated |
| Scan.DirectoryExpansion | src-tauri/src/main.rs:43-56 | a directory contributes a path exactly when it names a supported regular file somewhere beneath it |
| Scan.WalkFindsFiles | src-tauri/src/main.rs:44-45 | a walk yields a regular-file entry for `q` exactly when `q` is a regular file in the tree |
| Scan.FailedEntrySkipped | src-tauri/src/main.rs:44 | an unreadable entry or an unlistable subdirectory is dropped and its siblings are still scanned |
| Scan.NoFilesFromFailure | src-tauri/src/main.rs:44 | a failed entry or an unlistable directory contributes no path |
| Paths.LastIndexOf | src-tauri/src/main.rs:46-51 | the result is the position of the last occurrence of the character, or -1 exactly when it is absent |
| Paths.AsciiLower | src-tauri/src/main.rs:51 | lower-casing keeps the length and lowers each character on its own |
| Paths.ExtensionShape | src-tauri/src/main.rs:46-50 | an extension is the text after the last dot of a file name with a non-empty stem; a name without a dot, or whose only dot leads, has none |
| Paths.ExtensionOfName | src-tauri/src/main.rs:46-50 | the extension of `dir + stem + "." + e` is `e` when `e` has no dot or separator |
| Paths.SupportedAnyCase | src-tauri/src/main.rs:58-63 | a file passes the filter exactly when its extension, lower-cased, is on the allow-list, whatever its case |
| Paths.UpperCaseKept | src-tauri/src/main.rs:58-63 | every `*.PNG` file passes the filter |
| Paths.OtherExtensionDropped | src-tauri/src/main.rs:58-63 | no `*.txt` file passes the filter |
| Paths.NoExtensionNotSupported | src-tauri/src/main.rs:58-63 | a path without an extension is lowered to the empty string and never kept |
| Paths.LeadingDotDropped | src-tauri/src/main.rs:58-63 | a hidden name such as `.png` has no extension and is not kept |
| Palette.SplitPalette | src-tauri/src/main.rs:174-184 | PLTE holds r, g, b of entry `i` at `3i`, `3i+1`, `3i+2`; tRNS holds the alphas in order; the flag is raised exactly when some alpha is below 255 |
| Palette.PlteLayout | src-tauri/src/main.rs:178-181 | the PLTE bytes are three per entry, in entry order |
| Palette.TrnsLayout | src-tauri/src/main.rs:182 | the tRNS bytes are one alpha per entry, in entry order |
| Palette.TrnsChunk | src-tauri/src/main.rs:186-189 | a tRNS chunk is attached exactly when some entry has an alpha below 255, and then it holds one alpha per entry, entry `i`'s at position `i` |
| Process.MinQuality | src-tauri/src/main.rs:146 | the lower quality bound is at most `q`, at most 30 below it, and 0 exactly when `q <= 30` |
| Process.QuantizerRequest | src-tauri/src/main.rs:138-196 | the quantizer is asked for `[min, q]` with `min <= q <= min + 30`; the indexed PNG gets the palette as PLTE and tRNS only for a translucent palette |
| Process.QuantizeAndEncode | src-tauri/src/main.rs:138-196 | the closure returns the quantizer's error, or the encoder's output for the split palette and the pixel indices |
| Process.LossyCandidates | src-tauri/src/main.rs:198-221 | lossy output is the quantized PNG optimized with every chunk stripped, or that PNG itself if optimization fails, or the input optimized with default settings if quantization failed |
| Process.LossyFailsOnlyTwice | src-tauri/src/main.rs:198-221 | the lossy path fails exactly when quantization and the fallback optimization both fail, with the "PNG optimization failed: " message |
| Process.CompressPng | src-tauri/src/main.rs:118-234 | the PNG arm computes the same bytes or error message as the arm's specification `PngTranscode` |
| Process.CompressJpeg | src-tauri/src/main.rs:235-255 | the JPEG arm computes the same bytes or error message as `JpegTranscode` |
| Process.ModeSelection | src-tauri/src/main.rs:125-242 | only "lossy" selects the PNG lossy path; JPEG quality is 100 exactly in "lossless" mode or at quality 100, else the user's quality |
| Process.PngErrorsPrefixed | src-tauri/src/main.rs:119-233 | no failure of the PNG arm yields the message "Unsupported format", since each of its messages is prefixed |
| Process.JpegErrorsPrefixed | src-tauri/src/main.rs:237-254 | no failure of the JPEG arm yields the message "Unsupported format", since each of its messages is prefixed |
| Process.SupportedNeverUnsupported | src-tauri/src/main.rs:117-256 | a file on the allow-list never fails as an unsupported format |
| Process.UnsupportedFormat | src-tauri/src/main.rs:256-261 | a file off the allow-list whose metadata was read is an "Unsupported format" error and is never written |
| Process.ErrorExactlyOnFailure | src-tauri/src/main.rs:108-294 | a result is an error exactly when `fs::metadata` failed, the extension's arm failed, or the smaller output could not be saved; a failed save is never a success |
| Process.PngReadFailure | src-tauri/src/main.rs:119-122 | a PNG whose `fs::read` fails is an error "Failed to read file: " plus the message, and nothing is written |
| Process.OpenFailure | src-tauri/src/main.rs:129-132 | a JPEG, or a PNG in "lossy" mode, whose `image::open` fails is an error "Failed to open image: " plus the message, and nothing is written |
| Process.JpegEncodeFailure | src-tauri/src/main.rs:246-254 | a JPEG whose re-encoding fails is an error "JPEG encoding failed: " plus the message, and nothing is written |
| Process.LosslessPngFailure | src-tauri/src/main.rs:222-233 | a PNG outside "lossy" mode whose safe-strip `oxipng` run fails is an error "PNG optimization failed: " plus the message |
| Process.SaveFailure | src-tauri/src/main.rs:270-273 | smaller output whose `fs::write` fails is an error "Failed to save: " plus the message, after the write was attempted with that output |
| Process.MetadataFailureFirst | src-tauri/src/main.rs:108-111 | a failed `fs::metadata` ends processing first, with its message unprefixed and nothing written |
| Process.ProcessSingleFile | src-tauri/src/main.rs:104-294 | the reported result and the bytes written are those `Process` specifies |
| Process.FinishShape | src-tauri/src/main.rs:263-293 | the save decision writes exactly when the output is strictly smaller; a positive saving means the write succeeded and equals the size difference |
| Process.ResultShape | src-tauri/src/main.rs:296-305 | every result names its file; an error has a message and zero sizes; a success has no message, reports the stat size, and has compressed size at most the original and saving equal to their difference |
| Process.WrittenOnlyWhenSmaller | src-tauri/src/main.rs:270-273 | the file is written only with the compression output, and exactly when that output is strictly smaller than the original |
| Process.SavedOnlyWhenWritten | src-tauri/src/main.rs:270-282 | a positive saving is reported exactly when the smaller output was written successfully |
| Process.NoGainKeepsOriginal | src-tauri/src/main.rs:283-292 | output that is not smaller is discarded: nothing is written, and the result is a success that saved nothing |
| Progress.CompressFiles | src-tauri/src/main.rs:77-98 | one event per file in completion order; event `k` carries `done = k + 1`, the total, and that file's result |
| Progress.EventAt | src-tauri/src/main.rs:85-97 | the k-th event has done `k + 1`, the batch total, and the result of the k-th file to finish |
| Progress.CounterCounts | src-tauri/src/main.rs:85-87 | the counter grows by one per event and stays within 1..total; the last event of a non-empty batch has `done == total` |
| Progress.EventsNameFiles | src-tauri/src/main.rs:83-96 | each event names the file it reports on and carries a well-formed result |
| Progress.EveryFileReportedOnce | src-tauri/src/main.rs:81-99 | every input path is reported by exactly one event, which carries that path's result |
| Progress.ScheduleCoversAll | src-tauri/src/main.rs:81 | a completion order of `n` distinct indices below `n` names every file |
| Progress.CountDistinct | src-tauri/src/main.rs:81 | a completion order with as many distinct values as entries has no repeats |
| Progress.DistinctCount | src-tauri/src/main.rs:81 | a sequence without repeats has as many distinct values as entries |

## Left out

- The thread pool (`rayon`) and the mutex are not modelled. The files run one after another in a completion order given as a parameter, and the counter is a local variable. Interleavings between processing a file and taking the lock are not modelled.
- `app.emit`, and the ignored error it may return, become appending an event to the returned sequence. `compress_files` always returns `Ok(())`.
- The Tauri command wrappers, `main`, the plugins and the `println!` debug output are not modelled.
- `process_single_file` does not see a modelled filesystem: `fs::metadata`, `fs::read`, `image::open` and `fs::write` are outcomes given per file in `Process.Env`. (`scan_paths` does see one, `Scan.FileSystem`.)
  - When a path is listed twice, both copies are processed against the same `Env`.
  - The effect of the first write on the second copy is not modelled.
- The codecs (`imagequant`, the `png` encoder, `oxipng`, `JpegEncoder`) are functions in `Process.Env`. What they compute is not modelled; how their outcomes are combined and which settings they are given (quality range, strip setting, JPEG quality) is modelled.
  - The quantizer's own error strings (`IQ Quality err` and the rest) are not modelled, because the source only prints them before falling back.
  - The `png` encoder's header and write errors are not modelled either, for the same reason.
- `WalkDir` is modelled as a depth-first walk over a tree. Directory symlinks, cycles and the platform's enumeration order are not modelled: children are listed in the order the tree gives.
- Symbolic links are not a node of their own. A top-level input path maps to the node of its target, because `is_dir` and `is_file` follow links; `Scan.Special` stands for a link only inside a walk, where `file_type` does not follow it.
- Paths are Unix paths with `/` as the only separator. The following are not modelled: Windows prefixes and separators, the normalisation of `.` components, including a trailing `/.` (the model gives `a.png/.` no extension where Rust's `extension` gives `png`), non-UTF-8 names (`to_str` failing) and `to_string_lossy`.
- `to_lowercase` is modelled on ASCII letters only; Unicode case mappings of non-ASCII characters are not modelled.
- `u64` and `usize` sizes and counters are unbounded naturals. The source cannot overflow them for any real file, and `original_size - compressed_size` is only taken when the difference is positive.
- Progress.CompressFiles: does not return the bytes written for each file, which `Process.ProcessSingleFile` states per file.
- The image dimensions and the `bytemuck` cast are inside the quantizer function and are not modelled.
