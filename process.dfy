/** `process_single_file` and `create_error_result`: compress one image file
    in place and describe what happened in a `CompressionResult`.

    The filesystem calls and the codecs are not modelled; each file comes
    with an `Env` that gives the outcome of every call the source makes
    (`fs::metadata`, `fs::read`, `image::open`, `fs::write`) and the
    codecs as functions (`imagequant`, the `png` encoder, `oxipng`,
    `JpegEncoder`). What is modelled is the decision logic around them. */
module Process {
  import opened Common
  import opened Paths
  import opened Palette

  /** `CompressionOptions` as the front end sends it: `mode` is compared
      with "lossy" and "lossless", `quality` is a `u8`. */
  datatype CompressionOptions = CompressionOptions(mode: string, quality: byte)

  const LossyMode: string := "lossy"
  const LosslessMode: string := "lossless"

  /** `CompressionResult`: sizes are `u64` byte counts. */
  datatype CompressionResult = CompressionResult(
    filePath: string,
    originalSize: nat,
    compressedSize: nat,
    savedBefore: nat,
    status: string,
    error: Option<string>)

  const SuccessStatus: string := "success"
  const ErrorStatus: string := "error"

  /** A decoded image, as `image::open` returns it. */
  datatype Image = Image(width: nat, height: nat, rgba: Bytes)

  /** What `imagequant` returns from `remapped`: the palette and one index per pixel. */
  datatype Quantized = Quantized(palette: seq<Rgba>, indices: Bytes)

  /** The `strip` setting of the `oxipng` options (preset 2 in every call):
      the default keeps every chunk, `Safe` and `All` strip more. */
  datatype Strip = StripNone | StripSafe | StripAll

  /** The outcome of every external call made for one file. */
  datatype Env = Env(
    metadata: Result<nat>,
      /** `fs::metadata(path)`, as the file length */
    read: Result<Bytes>,
      /** `fs::read(path)` */
    open: Result<Image>,
      /** `image::open(path)` */
    quantize: (Image, byte, byte) -> Result<Quantized>,
      /** `imagequant`: `set_quality(min, max)`, `new_image_borrowed`, `quantize`,
          `set_dithering_level` and `remapped` */
    encodeIndexed: (Image, Bytes, Option<Bytes>, Bytes) -> Result<Bytes>,
      /** the `png` encoder: palette, optional tRNS, pixel indices */
    optimize: (Bytes, Strip) -> Result<Bytes>,
      /** `oxipng::optimize_from_memory` with preset 2 */
    encodeJpeg: (Image, byte) -> Result<Bytes>,
      /** `JpegEncoder::new_with_quality(quality).encode_image` */
    write: Bytes -> Option<string>
      /** `fs::write(path, data)`: the error message, if it fails */
  )

  /** What processing a file produces: the reported result, and the bytes
      handed to `fs::write`, if the file was written at all. */
  datatype Outcome = Outcome(result: CompressionResult, written: Option<Bytes>)

  /** The lower end of the quantizer's quality range: 30 below `q`,
      floored at 0, so that the unsigned subtraction never underflows. */
  function MinQuality(q: byte): (r: byte)
    ensures r <= q
    ensures q - r <= 30
    ensures r == 0 <==> q <= 30
  {
    if q > 30 then q - 30 else 0
  }

  /** The JPEG quality: 100 in "lossless" mode, the user's quality in any other mode. */
  function JpegQuality(options: CompressionOptions): byte
  {
    if options.mode == LosslessMode then 100 else options.quality
  }

  /** `create_error_result`. */
  function ErrorResult(path: string, message: string): CompressionResult
  {
    CompressionResult(path, 0, 0, 0, ErrorStatus, Some(message))
  }

  /** The closure of the lossy PNG path: quantize with the range
      `[MinQuality(q), q]`, then encode an indexed PNG whose PLTE is the
      palette's colours and whose tRNS, if any, its alphas. */
  function QuantizedPng(img: Image, options: CompressionOptions, env: Env): Result<Bytes>
  {
    var q := options.quality;
    match env.quantize(img, MinQuality(q), q)
    case Err(e) => Err(e)
    case Ok(qz) => env.encodeIndexed(img, PlteOf(qz.palette), TrnsChunk(qz.palette), qz.indices)
  }

  /** The lossy PNG chain: the quantized PNG optimized with every chunk
      stripped; the quantized PNG as is if that optimization fails; the
      input optimized losslessly if quantization fails. */
  function LossyPng(input: Bytes, img: Image, options: CompressionOptions, env: Env): Result<Bytes>
  {
    match QuantizedPng(img, options, env)
    case Ok(data) =>
      (match env.optimize(data, StripAll)
       case Ok(finalData) => Ok(finalData)
       case Err(_) => Ok(data))
    case Err(_) =>
      (match env.optimize(input, StripNone)
       case Ok(data) => Ok(data)
       case Err(e) => Err("PNG optimization failed: " + e))
  }

  /** The `"png"` arm of `process_single_file`: read the file, then the
      lossy chain in "lossy" mode, or a lossless optimization keeping the
      safe chunks in any other mode. */
  function PngTranscode(options: CompressionOptions, env: Env): Result<Bytes>
  {
    match env.read
    case Err(e) => Err("Failed to read file: " + e)
    case Ok(input) =>
      if options.mode == LossyMode then
        match env.open
        case Err(e) => Err("Failed to open image: " + e)
        case Ok(img) => LossyPng(input, img, options, env)
      else
        match env.optimize(input, StripSafe)
        case Ok(data) => Ok(data)
        case Err(e) => Err("PNG optimization failed: " + e)
  }

  /** The `"jpg" | "jpeg"` arm: decode, then re-encode at `JpegQuality`. */
  function JpegTranscode(options: CompressionOptions, env: Env): Result<Bytes>
  {
    match env.open
    case Err(e) => Err("Failed to open image: " + e)
    case Ok(img) =>
      match env.encodeJpeg(img, JpegQuality(options))
      case Ok(data) => Ok(data)
      case Err(e) => Err("JPEG encoding failed: " + e)
  }

  /** The `match ext` of `process_single_file`: the compressed bytes, or the
      message of the error the file is reported with. */
  function Transcode(path: string, options: CompressionOptions, env: Env): Result<Bytes>
  {
    var ext := LoweredExtension(path);
    if ext == "png" then PngTranscode(options, env)
    else if ext == "jpg" || ext == "jpeg" then JpegTranscode(options, env)
    else Err("Unsupported format")
  }

  /** The save decision: write only output strictly smaller than the
      original; otherwise report the original size and save nothing. */
  function Finish(path: string, originalSize: nat, data: Bytes, write: Bytes -> Option<string>): Outcome
  {
    if |data| < originalSize then
      match write(data)
      case Some(e) => Outcome(ErrorResult(path, "Failed to save: " + e), Some(data))
      case None =>
        Outcome(CompressionResult(path, originalSize, |data|, originalSize - |data|, SuccessStatus, None), Some(data))
    else
      Outcome(CompressionResult(path, originalSize, originalSize, 0, SuccessStatus, None), None)
  }

  /** `process_single_file` as a function of the outcomes in `env`. */
  function Process(path: string, options: CompressionOptions, env: Env): Outcome
  {
    match env.metadata
    case Err(e) => Outcome(ErrorResult(path, e), None)
    case Ok(originalSize) =>
      match Transcode(path, options, env)
      case Err(e) => Outcome(ErrorResult(path, e), None)
      case Ok(data) => Finish(path, originalSize, data, env.write)
  }

  /** The closure of the lossy PNG path, step by step. */
  method QuantizeAndEncode(img: Image, options: CompressionOptions, env: Env) returns (r: Result<Bytes>)
    ensures r == QuantizedPng(img, options, env)
  {
    var q := options.quality;
    var minQ := MinQuality(q);
    var quant := env.quantize(img, minQ, q);
    if quant.Err? {
      return Err(quant.error);
    }
    var palette, pixels := quant.value.palette, quant.value.indices;
    var plte, trns, hasTransparency := SplitPalette(palette);
    var trnsChunk: Option<Bytes> := None;
    if hasTransparency {
      trnsChunk := Some(trns);
    }
    r := env.encodeIndexed(img, plte, trnsChunk, pixels);
  }

  /** The `"png"` arm, step by step: each failed call ends the arm with
      its message; the lossy chain falls back as `LossyPng` says. */
  method CompressPng(options: CompressionOptions, env: Env) returns (r: Result<Bytes>)
    ensures r == PngTranscode(options, env)
  {
    if env.read.Err? {
      return Err("Failed to read file: " + env.read.error);
    }
    var inputData := env.read.value;
    if options.mode == LossyMode {
      if env.open.Err? {
        return Err("Failed to open image: " + env.open.error);
      }
      var quantResult := QuantizeAndEncode(env.open.value, options, env);
      if quantResult.Ok? {
        var data := quantResult.value;
        var optimized := env.optimize(data, StripAll);
        if optimized.Ok? {
          r := Ok(optimized.value);
        } else {
          r := Ok(data);
        }
      } else {
        var optimized := env.optimize(inputData, StripNone);
        if optimized.Ok? {
          r := Ok(optimized.value);
        } else {
          r := Err("PNG optimization failed: " + optimized.error);
        }
      }
    } else {
      var optimized := env.optimize(inputData, StripSafe);
      if optimized.Ok? {
        r := Ok(optimized.value);
      } else {
        r := Err("PNG optimization failed: " + optimized.error);
      }
    }
  }

  /** The `"jpg" | "jpeg"` arm, step by step. */
  method CompressJpeg(options: CompressionOptions, env: Env) returns (r: Result<Bytes>)
    ensures r == JpegTranscode(options, env)
  {
    if env.open.Err? {
      return Err("Failed to open image: " + env.open.error);
    }
    var quality := JpegQuality(options);
    var encoded := env.encodeJpeg(env.open.value, quality);
    if encoded.Ok? {
      r := Ok(encoded.value);
    } else {
      r := Err("JPEG encoding failed: " + encoded.error);
    }
  }

  /** `process_single_file`: stat the file, dispatch on the lowered
      extension, and save only output that is strictly smaller. */
  method ProcessSingleFile(path: string, options: CompressionOptions, env: Env)
    returns (result: CompressionResult, written: Option<Bytes>)
    ensures Outcome(result, written) == Process(path, options, env)
  {
    written := None;
    if env.metadata.Err? {
      return ErrorResult(path, env.metadata.error), None;
    }
    var originalSize := env.metadata.value;
    var ext := LoweredExtension(path);
    var compression: Result<Bytes>;
    if ext == "png" {
      compression := CompressPng(options, env);
    } else if ext == "jpg" || ext == "jpeg" {
      compression := CompressJpeg(options, env);
    } else {
      compression := Err("Unsupported format");
    }
    if compression.Err? {
      return ErrorResult(path, compression.error), None;
    }
    var compressedData := compression.value;

    var compressedSize := |compressedData|;
    if compressedSize < originalSize {
      written := Some(compressedData);
      var saveError := env.write(compressedData);
      if saveError.Some? {
        return ErrorResult(path, "Failed to save: " + saveError.value), written;
      }
      result := CompressionResult(path, originalSize, compressedSize, originalSize - compressedSize, SuccessStatus, None);
    } else {
      result := CompressionResult(path, originalSize, originalSize, 0, SuccessStatus, None);
    }
  }

  /** The two statuses are told apart. */
  lemma StatusesDiffer()
    ensures SuccessStatus != ErrorStatus
  {
    assert |SuccessStatus| != |ErrorStatus|;
  }

  /** The shape of a result: it names its file, is a success or an error,
      and has an error message exactly when it is an error; an error
      reports zero sizes, a success a compressed size no larger than the
      original and their difference as saved. */
  ghost predicate WellFormed(r: CompressionResult, path: string)
  {
    r.filePath == path &&
    (r.status == SuccessStatus || r.status == ErrorStatus) &&
    (r.status == ErrorStatus <==> r.error.Some?) &&
    (r.status == ErrorStatus ==> r.originalSize == 0 && r.compressedSize == 0 && r.savedBefore == 0) &&
    (r.status == SuccessStatus ==>
       r.compressedSize <= r.originalSize && r.savedBefore == r.originalSize - r.compressedSize)
  }

  /** The save decision keeps results well formed; a success reports the
      size it was given; smaller output is written and nothing else is; a
      positive saving means the write succeeded. */
  lemma FinishShape(path: string, originalSize: nat, data: Bytes, write: Bytes -> Option<string>)
    ensures var o := Finish(path, originalSize, data, write);
      WellFormed(o.result, path) &&
      (o.result.status == SuccessStatus ==> o.result.originalSize == originalSize) &&
      (o.written.Some? <==> |data| < originalSize) &&
      (o.written.Some? ==> o.written.value == data) &&
      (o.result.status == SuccessStatus && o.result.savedBefore > 0 <==>
         o.written.Some? && write(data).None?) &&
      (o.written.Some? && write(data).None? ==>
         o.result.compressedSize == |data| && o.result.savedBefore == originalSize - |data|)
  {
    StatusesDiffer();
  }

  /** Every result is well formed, and a success reports the size
      `fs::metadata` gave. */
  lemma ResultShape(path: string, options: CompressionOptions, env: Env)
    ensures WellFormed(Process(path, options, env).result, path)
    ensures var r := Process(path, options, env).result;
      r.status == SuccessStatus ==> env.metadata == Ok(r.originalSize)
  {
    StatusesDiffer();
    if env.metadata.Ok? {
      var t := Transcode(path, options, env);
      if t.Ok? {
        FinishShape(path, env.metadata.value, t.value, env.write);
      }
    }
  }

  /** The file is written only with the output of the compression step, and
      exactly when that output is strictly smaller than the original. */
  lemma WrittenOnlyWhenSmaller(path: string, options: CompressionOptions, env: Env)
    ensures var o := Process(path, options, env);
      o.written.Some? <==>
        env.metadata.Ok? && Transcode(path, options, env).Ok? &&
        |Transcode(path, options, env).value| < env.metadata.value
    ensures var o := Process(path, options, env);
      o.written.Some? ==> Transcode(path, options, env) == Ok(o.written.value)
  {
    if env.metadata.Ok? {
      var t := Transcode(path, options, env);
      if t.Ok? {
        FinishShape(path, env.metadata.value, t.value, env.write);
      }
    }
  }

  /** A positive saving is reported exactly when smaller output was written
      and the write succeeded; it is then the size difference. */
  lemma SavedOnlyWhenWritten(path: string, options: CompressionOptions, env: Env)
    ensures var o := Process(path, options, env);
      o.result.status == SuccessStatus && o.result.savedBefore > 0 <==>
        o.written.Some? && env.write(o.written.value).None?
    ensures var o := Process(path, options, env);
      o.written.Some? && env.write(o.written.value).None? ==>
        o.result.compressedSize == |o.written.value| &&
        o.result.savedBefore == o.result.originalSize - |o.written.value|
  {
    StatusesDiffer();
    if env.metadata.Ok? {
      var t := Transcode(path, options, env);
      if t.Ok? {
        FinishShape(path, env.metadata.value, t.value, env.write);
      }
    }
  }

  /** Output no smaller than the original is discarded: the file is left
      alone and reported as a success that saved nothing. */
  lemma NoGainKeepsOriginal(path: string, options: CompressionOptions, env: Env)
    requires env.metadata.Ok?
    ensures var t := Transcode(path, options, env);
      t.Ok? && |t.value| >= env.metadata.value ==>
        Process(path, options, env) ==
          Outcome(CompressionResult(path, env.metadata.value, env.metadata.value, 0, SuccessStatus, None), None)
  {
  }

  /** A failed `fs::metadata` ends processing before anything else, with its
      own message unprefixed. */
  lemma MetadataFailureFirst(path: string, options: CompressionOptions, env: Env)
    requires env.metadata.Err?
    ensures Process(path, options, env) == Outcome(ErrorResult(path, env.metadata.error), None)
  {
  }

  /** A file outside the allow-list is reported as an unsupported format
      (once its metadata could be read) and never written. */
  lemma UnsupportedFormat(path: string, options: CompressionOptions, env: Env)
    requires env.metadata.Ok? && !IsSupportedPath(path)
    ensures Process(path, options, env) == Outcome(ErrorResult(path, "Unsupported format"), None)
  {
  }

  /** A result is an error exactly when `fs::metadata` failed, the arm of
      the extension failed, or the smaller output could not be saved; in
      particular a failed save is never reported as a success. */
  lemma ErrorExactlyOnFailure(path: string, options: CompressionOptions, env: Env)
    ensures var t := Transcode(path, options, env);
      Process(path, options, env).result.status == ErrorStatus <==>
        env.metadata.Err? || t.Err? ||
        (|t.value| < env.metadata.value && env.write(t.value).Some?)
  {
    StatusesDiffer();
  }

  /** A PNG whose `fs::read` fails is an error with the read message. */
  lemma PngReadFailure(path: string, options: CompressionOptions, env: Env)
    ensures env.metadata.Ok? && LoweredExtension(path) == "png" && env.read.Err? ==>
      Process(path, options, env) ==
        Outcome(ErrorResult(path, "Failed to read file: " + env.read.error), None)
  {
  }

  /** A JPEG, or a PNG read in "lossy" mode, whose `image::open` fails is an
      error with the open message. */
  lemma OpenFailure(path: string, options: CompressionOptions, env: Env)
    ensures var ext := LoweredExtension(path);
      (env.metadata.Ok? && env.open.Err? &&
       (ext == "jpg" || ext == "jpeg" || (ext == "png" && env.read.Ok? && options.mode == LossyMode))) ==>
        Process(path, options, env) ==
          Outcome(ErrorResult(path, "Failed to open image: " + env.open.error), None)
  {
  }

  /** A JPEG whose re-encoding fails is an error with the encoder's message. */
  lemma JpegEncodeFailure(path: string, options: CompressionOptions, env: Env)
    ensures var ext := LoweredExtension(path);
      (env.metadata.Ok? && (ext == "jpg" || ext == "jpeg") && env.open.Ok? &&
       env.encodeJpeg(env.open.value, JpegQuality(options)).Err?) ==>
        Process(path, options, env) ==
          Outcome(ErrorResult(path, "JPEG encoding failed: " +
                              env.encodeJpeg(env.open.value, JpegQuality(options)).error), None)
  {
  }

  /** A PNG outside "lossy" mode whose lossless optimization fails is an
      error with the optimizer's message. */
  lemma LosslessPngFailure(path: string, options: CompressionOptions, env: Env)
    ensures (env.metadata.Ok? && LoweredExtension(path) == "png" && env.read.Ok? &&
             options.mode != LossyMode && env.optimize(env.read.value, StripSafe).Err?) ==>
        Process(path, options, env) ==
          Outcome(ErrorResult(path, "PNG optimization failed: " +
                              env.optimize(env.read.value, StripSafe).error), None)
  {
  }

  /** Smaller output whose `fs::write` fails is an error with the save
      message, after the write was attempted with that output. */
  lemma SaveFailure(path: string, options: CompressionOptions, env: Env)
    ensures var t := Transcode(path, options, env);
      env.metadata.Ok? && t.Ok? && |t.value| < env.metadata.value && env.write(t.value).Some? ==>
        Process(path, options, env) ==
          Outcome(ErrorResult(path, "Failed to save: " + env.write(t.value).value), Some(t.value))
  {
  }

  /** A message with a prefix of its own differs from one whose first
      character differs from the prefix's. */
  lemma PrefixedDiffers(prefix: string, e: string, msg: string)
    requires prefix != [] && msg != [] && prefix[0] != msg[0]
    ensures prefix + e != msg
  {
    assert (prefix + e)[0] == prefix[0];
  }

  /** Every error of the PNG arm carries a prefix of its own. */
  lemma PngErrorsPrefixed(options: CompressionOptions, env: Env)
    ensures PngTranscode(options, env) != Err("Unsupported format")
  {
    var u := "Unsupported format";
    match env.read
    case Err(e) => PrefixedDiffers("Failed to read file: ", e, u);
    case Ok(input) =>
      if options.mode == LossyMode {
        match env.open
        case Err(e) => PrefixedDiffers("Failed to open image: ", e, u);
        case Ok(img) =>
          var fallback := env.optimize(input, StripNone);
          if fallback.Err? {
            PrefixedDiffers("PNG optimization failed: ", fallback.error, u);
          }
      } else {
        var optimized := env.optimize(input, StripSafe);
        if optimized.Err? {
          PrefixedDiffers("PNG optimization failed: ", optimized.error, u);
        }
      }
  }

  /** Every error of the JPEG arm carries a prefix of its own. */
  lemma JpegErrorsPrefixed(options: CompressionOptions, env: Env)
    ensures JpegTranscode(options, env) != Err("Unsupported format")
  {
    var u := "Unsupported format";
    match env.open
    case Err(e) => PrefixedDiffers("Failed to open image: ", e, u);
    case Ok(img) =>
      var encoded := env.encodeJpeg(img, JpegQuality(options));
      if encoded.Err? {
        PrefixedDiffers("JPEG encoding failed: ", encoded.error, u);
      }
  }

  /** A file on the allow-list never fails as an unsupported format: that
      error is reported for the other extensions only. */
  lemma SupportedNeverUnsupported(path: string, options: CompressionOptions, env: Env)
    requires IsSupportedPath(path)
    ensures Transcode(path, options, env) != Err("Unsupported format")
  {
    if LoweredExtension(path) == "png" {
      PngErrorsPrefixed(options, env);
    } else {
      JpegErrorsPrefixed(options, env);
    }
  }

  /** The lossy chain yields one of three candidates: the quantized PNG
      optimized with every chunk stripped, the quantized PNG itself, or the
      input optimized with the default settings after quantization failed. */
  lemma LossyCandidates(input: Bytes, img: Image, options: CompressionOptions, env: Env)
    ensures var r := LossyPng(input, img, options, env);
      r.Ok? ==>
        match QuantizedPng(img, options, env)
        case Ok(q) => env.optimize(q, StripAll) == Ok(r.value) || (env.optimize(q, StripAll).Err? && r.value == q)
        case Err(_) => env.optimize(input, StripNone) == Ok(r.value)
  {
  }

  /** The lossy chain fails only when both quantization and the fallback
      optimization of the input failed; a quantized PNG is never lost. */
  lemma LossyFailsOnlyTwice(input: Bytes, img: Image, options: CompressionOptions, env: Env)
    ensures LossyPng(input, img, options, env).Err? <==>
      QuantizedPng(img, options, env).Err? && env.optimize(input, StripNone).Err?
    ensures LossyPng(input, img, options, env).Err? ==>
      LossyPng(input, img, options, env).error ==
        "PNG optimization failed: " + env.optimize(input, StripNone).error
  {
  }

  /** The quantizer is asked for a quality range `[min, q]` with `min <= q`
      and at most 30 wide, and the indexed PNG gets the palette as PLTE
      and a tRNS chunk only for a palette with a translucent entry. */
  lemma QuantizerRequest(img: Image, options: CompressionOptions, env: Env, qz: Quantized)
    requires env.quantize(img, MinQuality(options.quality), options.quality) == Ok(qz)
    ensures MinQuality(options.quality) <= options.quality
    ensures options.quality - MinQuality(options.quality) <= 30
    ensures QuantizedPng(img, options, env) ==
      env.encodeIndexed(img, PlteOf(qz.palette),
                        if HasTranslucentEntry(qz.palette) then Some(TrnsOf(qz.palette)) else None,
                        qz.indices)
  {
  }

  /** The mode string selects the PNG arm's path by `"lossy"` and the JPEG
      quality by `"lossless"`: any other mode string optimizes PNG
      losslessly yet encodes JPEG at the user's quality. */
  lemma ModeSelection(options: CompressionOptions, env: Env, input: Bytes)
    requires env.read == Ok(input)
    ensures options.mode != LossyMode ==>
      PngTranscode(options, env) ==
        (match env.optimize(input, StripSafe)
         case Ok(d) => Ok(d)
         case Err(e) => Err("PNG optimization failed: " + e))
    ensures JpegQuality(options) == 100 <==> options.mode == LosslessMode || options.quality == 100
    ensures options.mode != LosslessMode ==> JpegQuality(options) == options.quality
  {
  }
}
