/**
  The ffmpeg argument vectors: `build_ffmpeg_cmd_gpu` of the GUI
  (sonyToPhoto.py) and `build_ffmpeg_cmd` of the command-line tool
  (transcode_core.py).

  Every vector the two builders produce has the same shape:
    program, "-hide_banner", "-y" | "-n", then flag/value pairs, then the
  output path. `Render` writes that shape and `Parse` reads it back; the
  properties of the builders are stated on the parsed flag/value pairs, so
  that a value which happens to look like a flag can never be mistaken
  for one.
 */
module Command {
  import opened Common

  // ---------------------------------------------------------------------
  // Argument-vector shape

  /** The flags the builders emit (each is followed by exactly one value). */
  datatype Flag =
    | Input | Map | VideoCodec | Preset | Cq | Crf | Quality | RateControl | QMin | QMax
    | PixFmt | ColorPrimaries | ColorTrc | ColorSpace | X265Params | X264Params
    | VideoTag | AudioCodec | AudioBitrate | MovFlags | FrameRate

  function FlagText(f: Flag): string {
    match f
    case Input => "-i"
    case Map => "-map"
    case VideoCodec => "-c:v"
    case Preset => "-preset"
    case Cq => "-cq"
    case Crf => "-crf"
    case Quality => "-quality"
    case RateControl => "-rc"
    case QMin => "-qmin"
    case QMax => "-qmax"
    case PixFmt => "-pix_fmt"
    case ColorPrimaries => "-color_primaries"
    case ColorTrc => "-color_trc"
    case ColorSpace => "-colorspace"
    case X265Params => "-x265-params"
    case X264Params => "-x264-params"
    case VideoTag => "-tag:v"
    case AudioCodec => "-c:a"
    case AudioBitrate => "-b:a"
    case MovFlags => "-movflags"
    case FrameRate => "-r"
  }

  function FlagOf(s: string): Option<Flag> {
    if s == "-i" then Some(Input)
    else if s == "-map" then Some(Map)
    else if s == "-c:v" then Some(VideoCodec)
    else if s == "-preset" then Some(Preset)
    else if s == "-cq" then Some(Cq)
    else if s == "-crf" then Some(Crf)
    else if s == "-quality" then Some(Quality)
    else if s == "-rc" then Some(RateControl)
    else if s == "-qmin" then Some(QMin)
    else if s == "-qmax" then Some(QMax)
    else if s == "-pix_fmt" then Some(PixFmt)
    else if s == "-color_primaries" then Some(ColorPrimaries)
    else if s == "-color_trc" then Some(ColorTrc)
    else if s == "-colorspace" then Some(ColorSpace)
    else if s == "-x265-params" then Some(X265Params)
    else if s == "-x264-params" then Some(X264Params)
    else if s == "-tag:v" then Some(VideoTag)
    else if s == "-c:a" then Some(AudioCodec)
    else if s == "-b:a" then Some(AudioBitrate)
    else if s == "-movflags" then Some(MovFlags)
    else if s == "-r" then Some(FrameRate)
    else None
  }

  lemma FlagOfText(f: Flag)
    ensures FlagOf(FlagText(f)) == Some(f)
  {
  }

  lemma FlagTextOf(s: string)
    requires FlagOf(s).Some?
    ensures FlagText(FlagOf(s).value) == s
  {
    match FlagOf(s).value
    case Input => assert s == "-i";
    case Map => assert s == "-map";
    case VideoCodec => assert s == "-c:v";
    case Preset => assert s == "-preset";
    case Cq => assert s == "-cq";
    case Crf => assert s == "-crf";
    case Quality => assert s == "-quality";
    case RateControl => assert s == "-rc";
    case QMin => assert s == "-qmin";
    case QMax => assert s == "-qmax";
    case PixFmt => assert s == "-pix_fmt";
    case ColorPrimaries => assert s == "-color_primaries";
    case ColorTrc => assert s == "-color_trc";
    case ColorSpace => assert s == "-colorspace";
    case X265Params => assert s == "-x265-params";
    case X264Params => assert s == "-x264-params";
    case VideoTag => assert s == "-tag:v";
    case AudioCodec => assert s == "-c:a";
    case AudioBitrate => assert s == "-b:a";
    case MovFlags => assert s == "-movflags";
    case FrameRate => assert s == "-r";
  }

  datatype Invocation = Invocation(
    program: string,
    overwrite: bool,
    options: seq<(Flag, string)>,
    output: string)

  function Flatten(opts: seq<(Flag, string)>): (r: seq<string>)
    ensures |r| == 2 * |opts|
  {
    if opts == [] then [] else [FlagText(opts[0].0), opts[0].1] + Flatten(opts[1..])
  }

  /** The definition of `Flatten` as a quantified equation, so that it can
      be unfolded along a whole literal list. */
  lemma FlattenUnfold()
    ensures forall s: seq<(Flag, string)> {:trigger Flatten(s)} ::
      Flatten(s) == if |s| == 0 then [] else [FlagText(s[0].0), s[0].1] + Flatten(s[1..])
  {
  }

  /** Reads flag/value pairs; None when some flag is not one of `Flag`. */
  function Pairs(s: seq<string>): (r: Option<seq<(Flag, string)>>)
    requires |s| % 2 == 0
    ensures r.Some? ==> |r.value| == |s| / 2
  {
    if s == [] then Some([])
    else
      var f := FlagOf(s[0]);
      var rest := Pairs(s[2..]);
      if f.None? || rest.None? then None else Some([(f.value, s[1])] + rest.value)
  }

  lemma {:induction false} PairsFlatten(opts: seq<(Flag, string)>)
    ensures Pairs(Flatten(opts)) == Some(opts)
  {
    if opts != [] {
      var f := Flatten(opts);
      assert f[0] == FlagText(opts[0].0) && f[1] == opts[0].1;
      assert f[2..] == Flatten(opts[1..]);
      FlagOfText(opts[0].0);
      PairsFlatten(opts[1..]);
      assert [(opts[0].0, opts[0].1)] + opts[1..] == opts;
    }
  }

  lemma {:induction false} FlattenPairs(s: seq<string>)
    requires |s| % 2 == 0 && Pairs(s).Some?
    ensures Flatten(Pairs(s).value) == s
  {
    if s != [] {
      var p := Pairs(s).value;
      FlagTextOf(s[0]);
      assert p[1..] == Pairs(s[2..]).value;
      FlattenPairs(s[2..]);
    }
  }

  function Render(inv: Invocation): (argv: seq<string>)
    ensures |argv| == 4 + 2 * |inv.options|
  {
    [inv.program, "-hide_banner", if inv.overwrite then "-y" else "-n"]
    + Flatten(inv.options) + [inv.output]
  }

  /** Reads an argument vector of the shape the builders produce. */
  function Parse(argv: seq<string>): Option<Invocation> {
    if |argv| >= 4 && |argv| % 2 == 0 && argv[1] == "-hide_banner"
       && (argv[2] == "-y" || argv[2] == "-n") && Pairs(argv[3..|argv| - 1]).Some?
    then Some(Invocation(argv[0], argv[2] == "-y", Pairs(argv[3..|argv| - 1]).value, argv[|argv| - 1]))
    else None
  }

  lemma ParseRender(inv: Invocation)
    ensures Parse(Render(inv)) == Some(inv)
  {
    var argv := Render(inv);
    assert argv[3..|argv| - 1] == Flatten(inv.options);
    PairsFlatten(inv.options);
  }

  lemma RenderParse(argv: seq<string>)
    requires Parse(argv).Some?
    ensures Render(Parse(argv).value) == argv
  {
    var inv := Parse(argv).value;
    var mid := argv[3..|argv| - 1];
    FlattenPairs(mid);
    assert Flatten(inv.options) == mid;
    assert argv == [argv[0], argv[1], argv[2]] + mid + [argv[|argv| - 1]];
  }

  /** The value given to the first occurrence of `flag`. */
  function Lookup(opts: seq<(Flag, string)>, flag: Flag): Option<string> {
    if opts == [] then None
    else if opts[0].0 == flag then Some(opts[0].1)
    else Lookup(opts[1..], flag)
  }

  /** The definition of `Lookup` as a quantified equation, so that it can be
      unfolded along a whole literal list. */
  lemma LookupUnfold()
    ensures forall s: seq<(Flag, string)>, f {:trigger Lookup(s, f)} ::
      Lookup(s, f) == if |s| == 0 then None else if s[0].0 == f then Some(s[0].1) else Lookup(s[1..], f)
  {
  }

  /** `Lookup` answers with the value of the first pair that carries the flag. */
  lemma {:induction false} LookupFirst(s: seq<(Flag, string)>, flag: Flag, i: nat)
    requires i < |s| && s[i].0 == flag
    requires forall j | 0 <= j < i :: s[j].0 != flag
    ensures Lookup(s, flag) == Some(s[i].1)
  {
    if i > 0 {
      assert s[0].0 != flag;
      LookupFirst(s[1..], flag, i - 1);
    }
  }

  /** `Lookup` answers None exactly when no pair carries the flag. */
  lemma {:induction false} LookupNone(s: seq<(Flag, string)>, flag: Flag)
    ensures Lookup(s, flag) == None <==> forall j | 0 <= j < |s| :: s[j].0 != flag
  {
    if s != [] {
      LookupNone(s[1..], flag);
      if s[0].0 != flag {
        assert forall j | 1 <= j < |s| :: s[j].0 == s[1..][j - 1].0;
      }
    }
  }

  lemma {:induction false} LookupAppend(a: seq<(Flag, string)>, b: seq<(Flag, string)>, flag: Flag)
    ensures Lookup(a + b, flag) == if Lookup(a, flag).Some? then Lookup(a, flag) else Lookup(b, flag)
  {
    if a != [] {
      assert (a + b)[0] == a[0];
      assert (a + b)[1..] == a[1..] + b;
      if a[0].0 != flag {
        LookupAppend(a[1..], b, flag);
      }
    } else {
      assert a + b == b;
    }
  }

  // ---------------------------------------------------------------------
  // Codecs, encoders and the HLG colour tags

  datatype Codec = Hevc | H264

  /** The builders compare the codec argument with 'hevc' only; every other
      value takes the H.264 branches. */
  function CodecOf(name: string): Codec {
    if name == "hevc" then Hevc else H264
  }

  function CodecName(codec: Codec): string {
    if codec == Hevc then "hevc" else "h264"
  }

  /** The encoder-specific branch of the builder. */
  datatype Branch = Nvenc | Amf | Qsv | VideoToolbox | Software

  /** HEVC compares the encoder name exactly; H.264 looks for a vendor
      substring, in the order nvenc, amf, qsv, videotoolbox. Anything not
      recognised gets the software branch. */
  function HardwareBranch(codec: Codec, encoder: string): Branch {
    if codec == Hevc then
      if encoder == "h265_nvenc" then Nvenc
      else if encoder == "hevc_amf" then Amf
      else if encoder == "hevc_qsv" then Qsv
      else if encoder == "hevc_videotoolbox" then VideoToolbox
      else Software
    else
      if Contains(encoder, "nvenc") || Contains(encoder, "h264_nvenc") then Nvenc
      else if Contains(encoder, "amf") || Contains(encoder, "h264_amf") then Amf
      else if Contains(encoder, "qsv") || Contains(encoder, "h264_qsv") then Qsv
      else if Contains(encoder, "videotoolbox") || Contains(encoder, "h264_videotoolbox") then VideoToolbox
      else Software
  }

  function SelectBranch(codec: Codec, gpuEncoder: Option<string>): Branch {
    if gpuEncoder.None? then Software else HardwareBranch(codec, gpuEncoder.value)
  }

  /** The `-c:v` value of each branch. */
  function EncoderName(codec: Codec, branch: Branch): string {
    match branch
    case Nvenc => if codec == Hevc then "h265_nvenc" else "h264_nvenc"
    case Amf => if codec == Hevc then "hevc_amf" else "h264_amf"
    case Qsv => if codec == Hevc then "hevc_qsv" else "h264_qsv"
    case VideoToolbox => if codec == Hevc then "hevc_videotoolbox" else "h264_videotoolbox"
    case Software => if codec == Hevc then "libx265" else "libx264"
  }

  function PixelFormat(codec: Codec, branch: Branch): string {
    if codec == H264 then "yuv420p"
    else if branch == Amf then "p010le"
    else "yuv420p10le"
  }

  // ITU-R BT.2020 primaries, ARIB STD-B67 (HLG) transfer, BT.2020
  // non-constant-luminance matrix, in ffmpeg's and x26x's spellings.
  const Primaries := "bt2020"
  const Transfer := "arib-std-b67"
  const Matrix := "bt2020nc"
  const PrimariesParam := "colorprim=" + Primaries
  const TransferParam := "transfer=" + Transfer
  const MatrixParam := "colormatrix=" + Matrix

  /** The `-x265-params` / `-x264-params` value: profile and level, then the
      three colour tags. */
  function EncoderParams(codec: Codec): string {
    (if codec == Hevc then "profile=main10:level=5.1:" else "profile=high:level=5.1:")
    + PrimariesParam + ":" + TransferParam + ":" + MatrixParam
  }

  function ParamsFlag(codec: Codec): Flag {
    if codec == Hevc then X265Params else X264Params
  }

  const ColorFlags: seq<(Flag, string)> :=
    [(ColorPrimaries, Primaries), (ColorTrc, Transfer), (ColorSpace, Matrix)]

  function InputOptions(inFile: string): seq<(Flag, string)> {
    [(Input, inFile), (Map, "0:v:0"), (Map, "0:a?")]
  }

  function VideoOptions(codec: Codec, branch: Branch, crf: nat, preset: string): seq<(Flag, string)> {
    var q := NatToString(crf);
    var name := EncoderName(codec, branch);
    var pixfmt := PixelFormat(codec, branch);
    match branch
    case Nvenc =>
      [(VideoCodec, name), (Preset, Lower(preset)), (Cq, q), (PixFmt, pixfmt)] + ColorFlags
    case Amf =>
      [(VideoCodec, name), (Quality, "quality"), (RateControl, "cqp"), (QMin, q), (QMax, q),
       (PixFmt, pixfmt)] + ColorFlags
    case Qsv =>
      [(VideoCodec, name), (Preset, Lower(preset)), (Crf, q), (PixFmt, pixfmt)] + ColorFlags
    case VideoToolbox =>
      [(VideoCodec, name), (Quality, "medium"), (Crf, q), (PixFmt, pixfmt)] + ColorFlags
    case Software =>
      [(VideoCodec, name), (Preset, preset), (Crf, q), (PixFmt, pixfmt),
       (ParamsFlag(codec), EncoderParams(codec))]
  }

  function ContainerTag(codec: Codec): string {
    if codec == Hevc then "hvc1" else "avc1"
  }

  function OutputOptions(codec: Codec, audioBitrate: string, fps: Option<string>): seq<(Flag, string)> {
    [(VideoTag, ContainerTag(codec)), (AudioCodec, "aac"), (AudioBitrate, audioBitrate), (MovFlags, "+faststart")]
    + (if fps.Some? then [(FrameRate, fps.value)] else [])
  }

  function Options(inFile: string, codec: Codec, crf: nat, preset: string, fps: Option<string>,
                   audioBitrate: string, gpuEncoder: Option<string>): seq<(Flag, string)> {
    InputOptions(inFile) + VideoOptions(codec, SelectBranch(codec, gpuEncoder), crf, preset)
    + OutputOptions(codec, audioBitrate, fps)
  }

  // ---------------------------------------------------------------------
  // What every command must carry

  predicate ParamsCarryHlg(v: Option<string>) {
    v.Some? && Contains(v.value, PrimariesParam) && Contains(v.value, TransferParam)
    && Contains(v.value, MatrixParam)
  }

  /** Software encoders carry the tags inside their parameter string,
      hardware encoders as the three colour flags. */
  predicate CarriesHlgTags(opts: seq<(Flag, string)>) {
    var enc := Lookup(opts, VideoCodec);
    if enc == Some("libx265") then ParamsCarryHlg(Lookup(opts, X265Params))
    else if enc == Some("libx264") then ParamsCarryHlg(Lookup(opts, X264Params))
    else Lookup(opts, ColorPrimaries) == Some(Primaries)
         && Lookup(opts, ColorTrc) == Some(Transfer)
         && Lookup(opts, ColorSpace) == Some(Matrix)
  }

  lemma ContainsMiddle(a: string, b: string, c: string)
    ensures Contains(a + b + c, b)
  {
    assert OccursAt(a + b + c, b, |a|);
  }

  lemma EncoderParamsCarryHlg(codec: Codec)
    ensures ParamsCarryHlg(Some(EncoderParams(codec)))
  {
    var head := if codec == Hevc then "profile=main10:level=5.1:" else "profile=high:level=5.1:";
    var p := EncoderParams(codec);
    assert p == head + PrimariesParam + (":" + TransferParam + ":" + MatrixParam);
    ContainsMiddle(head, PrimariesParam, ":" + TransferParam + ":" + MatrixParam);
    assert p == (head + PrimariesParam + ":") + TransferParam + (":" + MatrixParam);
    ContainsMiddle(head + PrimariesParam + ":", TransferParam, ":" + MatrixParam);
    assert p == (head + PrimariesParam + ":" + TransferParam + ":") + MatrixParam + "";
    ContainsMiddle(head + PrimariesParam + ":" + TransferParam + ":", MatrixParam, "");
  }

  lemma VideoOptionsFacts(codec: Codec, branch: Branch, crf: nat, preset: string)
    ensures var v := VideoOptions(codec, branch, crf, preset);
      && Lookup(v, VideoCodec) == Some(EncoderName(codec, branch))
      && Lookup(v, PixFmt) == Some(PixelFormat(codec, branch))
      && CarriesHlgTags(v)
      && forall flag | IsOutputFlag(flag) :: Lookup(v, flag) == None
  {
    VideoEncoderFacts(codec, branch, crf, preset);
    VideoCarriesHlg(codec, branch, crf, preset);
    VideoAvoidsOutput(codec, branch, crf, preset);
    AbsentOutputFlags(VideoOptions(codec, branch, crf, preset));
  }

  lemma VideoAvoidsOutput(codec: Codec, branch: Branch, crf: nat, preset: string)
    ensures var v := VideoOptions(codec, branch, crf, preset);
      forall j | 0 <= j < |v| :: !IsOutputFlag(v[j].0)
  {
  }

  lemma AbsentOutputFlags(v: seq<(Flag, string)>)
    requires forall j | 0 <= j < |v| :: !IsOutputFlag(v[j].0)
    ensures forall flag | IsOutputFlag(flag) :: Lookup(v, flag) == None
  {
    forall flag | IsOutputFlag(flag)
      ensures Lookup(v, flag) == None
    {
      LookupNone(v, flag);
    }
  }

  lemma VideoEncoderFacts(codec: Codec, branch: Branch, crf: nat, preset: string)
    ensures var v := VideoOptions(codec, branch, crf, preset);
      && Lookup(v, VideoCodec) == Some(EncoderName(codec, branch))
      && Lookup(v, PixFmt) == Some(PixelFormat(codec, branch))
  {
    var name, q, pixfmt := EncoderName(codec, branch), NatToString(crf), PixelFormat(codec, branch);
    match branch
    case Nvenc => FourThenColours(name, (Preset, Lower(preset)), Cq, q, pixfmt);
    case Amf => AmfThenColours(name, q, pixfmt);
    case Qsv => FourThenColours(name, (Preset, Lower(preset)), Crf, q, pixfmt);
    case VideoToolbox => FourThenColours(name, (Quality, "medium"), Crf, q, pixfmt);
    case Software => SoftwareList(name, preset, q, pixfmt, ParamsFlag(codec), EncoderParams(codec));
  }

  lemma VideoCarriesHlg(codec: Codec, branch: Branch, crf: nat, preset: string)
    ensures CarriesHlgTags(VideoOptions(codec, branch, crf, preset))
  {
    if branch == Software {
      SoftwareCarriesHlg(codec, crf, preset);
    } else {
      VideoEncoderFacts(codec, branch, crf, preset);
      HardwareColours(codec, branch, crf, preset);
      HardwareCarriesHlg(VideoOptions(codec, branch, crf, preset), EncoderName(codec, branch));
    }
  }

  lemma SoftwareCarriesHlg(codec: Codec, crf: nat, preset: string)
    ensures CarriesHlgTags(VideoOptions(codec, Software, crf, preset))
  {
    var name, pflag := EncoderName(codec, Software), ParamsFlag(codec);
    SoftwareList(name, preset, NatToString(crf), PixelFormat(codec, Software), pflag, EncoderParams(codec));
    EncoderParamsCarryHlg(codec);
    SoftwareParamsCarry(VideoOptions(codec, Software, crf, preset), codec, EncoderParams(codec));
  }

  /** A software encoder's parameter string decides the HLG tags. */
  lemma SoftwareParamsCarry(v: seq<(Flag, string)>, codec: Codec, params: string)
    requires Lookup(v, VideoCodec) == Some(EncoderName(codec, Software))
    requires Lookup(v, ParamsFlag(codec)) == Some(params) && ParamsCarryHlg(Some(params))
    ensures CarriesHlgTags(v)
  {
    if codec == H264 {
      assert EncoderName(codec, Software) == "libx264" != "libx265";
    }
  }

  /** Every hardware branch ends with the three colour flags. */
  lemma HardwareColours(codec: Codec, branch: Branch, crf: nat, preset: string)
    requires branch != Software
    ensures var v := VideoOptions(codec, branch, crf, preset);
      && Lookup(v, ColorPrimaries) == Some(Primaries) && Lookup(v, ColorTrc) == Some(Transfer)
      && Lookup(v, ColorSpace) == Some(Matrix)
  {
    var name, q, pixfmt := EncoderName(codec, branch), NatToString(crf), PixelFormat(codec, branch);
    match branch
    case Nvenc => ColoursAfter([(VideoCodec, name), (Preset, Lower(preset)), (Cq, q), (PixFmt, pixfmt)]);
    case Amf =>
      ColoursAfter([(VideoCodec, name), (Quality, "quality"), (RateControl, "cqp"), (QMin, q), (QMax, q),
                    (PixFmt, pixfmt)]);
    case Qsv => ColoursAfter([(VideoCodec, name), (Preset, Lower(preset)), (Crf, q), (PixFmt, pixfmt)]);
    case VideoToolbox => ColoursAfter([(VideoCodec, name), (Quality, "medium"), (Crf, q), (PixFmt, pixfmt)]);
  }

  /** A hardware encoder's name starts with 'h', a software one's with 'l'. */
  lemma HardwareCarriesHlg(v: seq<(Flag, string)>, name: string)
    requires Lookup(v, VideoCodec) == Some(name) && |name| > 0 && name[0] == 'h'
    requires Lookup(v, ColorPrimaries) == Some(Primaries)
    requires Lookup(v, ColorTrc) == Some(Transfer)
    requires Lookup(v, ColorSpace) == Some(Matrix)
    ensures CarriesHlgTags(v)
  {
    assert "libx265"[0] == 'l' && "libx264"[0] == 'l';
  }

  // The literal option lists of the branches, read with `Lookup`.

  /** The NVENC, QSV and VideoToolbox lists: the encoder, one setting, the
      rate flag, the pixel format, then the colour flags (`ColoursAfter`). */
  lemma FourThenColours(name: string, x: (Flag, string), rate: Flag, q: string, pixfmt: string)
    requires x.0 == Preset || x.0 == Quality
    requires rate == Cq || rate == Crf
    ensures var v := [(VideoCodec, name), x, (rate, q), (PixFmt, pixfmt)] + ColorFlags;
      && Lookup(v, VideoCodec) == Some(name) && Lookup(v, PixFmt) == Some(pixfmt)
      && Lookup(v, rate) == Some(q) && Lookup(v, if rate == Cq then Crf else Cq) == None
  {
    var v := [(VideoCodec, name), x, (rate, q), (PixFmt, pixfmt)] + ColorFlags;
    LookupFirst(v, VideoCodec, 0);
    LookupFirst(v, rate, 2);
    LookupFirst(v, PixFmt, 3);
    LookupNone(v, if rate == Cq then Crf else Cq);
  }

  /** The AMF list: the encoder, quality preset, constant-QP rate control,
      equal minimum and maximum QP, the pixel format, then the colour flags
      (`ColoursAfter`). */
  lemma AmfThenColours(name: string, q: string, pixfmt: string)
    ensures var v := [(VideoCodec, name), (Quality, "quality"), (RateControl, "cqp"), (QMin, q), (QMax, q),
                      (PixFmt, pixfmt)] + ColorFlags;
      && Lookup(v, VideoCodec) == Some(name) && Lookup(v, PixFmt) == Some(pixfmt)
      && Lookup(v, QMin) == Some(q) && Lookup(v, QMax) == Some(q) && Lookup(v, Crf) == None
  {
    var v := [(VideoCodec, name), (Quality, "quality"), (RateControl, "cqp"), (QMin, q), (QMax, q),
              (PixFmt, pixfmt)] + ColorFlags;
    LookupFirst(v, VideoCodec, 0);
    LookupFirst(v, QMin, 3);
    LookupFirst(v, QMax, 4);
    LookupFirst(v, PixFmt, 5);
    LookupNone(v, Crf);
  }

  /** The colour flags after a head that sets none of them. */
  lemma ColoursAfter(h: seq<(Flag, string)>)
    requires forall j | 0 <= j < |h| :: h[j].0 != ColorPrimaries && h[j].0 != ColorTrc && h[j].0 != ColorSpace
    ensures var v := h + ColorFlags;
      && Lookup(v, ColorPrimaries) == Some(Primaries) && Lookup(v, ColorTrc) == Some(Transfer)
      && Lookup(v, ColorSpace) == Some(Matrix)
  {
    ColorFlagsAt(h + ColorFlags, |h|);
  }

  /** The software list: the encoder, preset, `-crf`, the pixel format and
      the encoder's parameter string. */
  lemma SoftwareList(name: string, preset: string, q: string, pixfmt: string, pflag: Flag, params: string)
    requires pflag == X265Params || pflag == X264Params
    ensures var v := [(VideoCodec, name), (Preset, preset), (Crf, q), (PixFmt, pixfmt), (pflag, params)];
      && Lookup(v, VideoCodec) == Some(name) && Lookup(v, PixFmt) == Some(pixfmt)
      && Lookup(v, Crf) == Some(q) && Lookup(v, Cq) == None && Lookup(v, pflag) == Some(params)
  {
    var v := [(VideoCodec, name), (Preset, preset), (Crf, q), (PixFmt, pixfmt), (pflag, params)];
    LookupFirst(v, VideoCodec, 0);
    LookupFirst(v, Crf, 2);
    LookupFirst(v, PixFmt, 3);
    LookupFirst(v, pflag, 4);
    LookupNone(v, Cq);
  }

  /** The flags that `OutputOptions` contributes. */
  predicate IsOutputFlag(f: Flag) {
    f == VideoTag || f == FrameRate || f == AudioCodec || f == AudioBitrate || f == MovFlags
  }

  /** The three colour flags sit at `k`, `k + 1`, `k + 2` and nowhere before. */
  lemma ColorFlagsAt(v: seq<(Flag, string)>, k: nat)
    requires k + 3 <= |v|
    requires v[k] == (ColorPrimaries, Primaries) && v[k + 1] == (ColorTrc, Transfer)
    requires v[k + 2] == (ColorSpace, Matrix)
    requires forall j | 0 <= j < k :: v[j].0 != ColorPrimaries && v[j].0 != ColorTrc && v[j].0 != ColorSpace
    ensures Lookup(v, ColorPrimaries) == Some(Primaries)
    ensures Lookup(v, ColorTrc) == Some(Transfer)
    ensures Lookup(v, ColorSpace) == Some(Matrix)
  {
    LookupFirst(v, ColorPrimaries, k);
    LookupFirst(v, ColorTrc, k + 1);
    LookupFirst(v, ColorSpace, k + 2);
  }

  // ---------------------------------------------------------------------
  // The builders

  /** `build_ffmpeg_cmd_gpu`: `gpuEncoder` None means the CPU encoder. */
  function BuildGpu(ffmpeg: string, inFile: string, outFile: string, codec: Codec, crf: nat,
                    preset: string, fps: Option<string>, audioBitrate: string, overwrite: bool,
                    gpuEncoder: Option<string>): (argv: seq<string>)
    ensures |argv| >= 10 && argv[0] == ffmpeg && argv[1] == "-hide_banner"
    ensures argv[2] == "-y" <==> overwrite
    ensures argv[2] == "-n" <==> !overwrite
    ensures argv[3..9] == ["-i", inFile, "-map", "0:v:0", "-map", "0:a?"]
    ensures argv[|argv| - 1] == outFile
  {
    var opts := Options(inFile, codec, crf, preset, fps, audioBitrate, gpuEncoder);
    var inv := Invocation(ffmpeg, overwrite, opts, outFile);
    var branch := SelectBranch(codec, gpuEncoder);
    RenderShape(inv);
    var rest := VideoOptions(codec, branch, crf, preset) + OutputOptions(codec, audioBitrate, fps);
    assert opts == InputOptions(inFile) + rest;
    RenderInputs(ffmpeg, overwrite, inFile, rest, outFile);
    Render(inv)
  }

  /** Read back, the GPU builder's command names the chosen encoder, keeps
      the audio as AAC at the requested bit rate, moves the index to the
      front, sets the frame rate exactly when one is given, and tags the
      video as HLG. */
  lemma BuildGpuOptions(ffmpeg: string, inFile: string, outFile: string, codec: Codec, crf: nat,
                        preset: string, fps: Option<string>, audioBitrate: string, overwrite: bool,
                        gpuEncoder: Option<string>)
    ensures var argv := BuildGpu(ffmpeg, inFile, outFile, codec, crf, preset, fps, audioBitrate, overwrite, gpuEncoder);
      Parse(argv).Some? &&
      var o := Parse(argv).value.options;
      && Lookup(o, VideoCodec) == Some(EncoderName(codec, SelectBranch(codec, gpuEncoder)))
      && Lookup(o, VideoTag) == Some(if codec == Hevc then "hvc1" else "avc1")
      && Lookup(o, FrameRate) == fps
      && Lookup(o, AudioCodec) == Some("aac") && Lookup(o, AudioBitrate) == Some(audioBitrate)
      && Lookup(o, MovFlags) == Some("+faststart")
      && CarriesHlgTags(o)
  {
    var opts := Options(inFile, codec, crf, preset, fps, audioBitrate, gpuEncoder);
    ParseRender(Invocation(ffmpeg, overwrite, opts, outFile));
    OptionsFacts(inFile, codec, SelectBranch(codec, gpuEncoder), crf, preset, fps, audioBitrate);
  }

  lemma RenderShape(inv: Invocation)
    ensures var argv := Render(inv);
      && argv[0] == inv.program && argv[1] == "-hide_banner"
      && (argv[2] == "-y" <==> inv.overwrite) && (argv[2] == "-n" <==> !inv.overwrite)
      && argv[|argv| - 1] == inv.output
  {
  }

  lemma RenderInputs(ffmpeg: string, overwrite: bool, inFile: string, rest: seq<(Flag, string)>, outFile: string)
    ensures Render(Invocation(ffmpeg, overwrite, InputOptions(inFile) + rest, outFile))[3..9]
         == ["-i", inFile, "-map", "0:v:0", "-map", "0:a?"]
  {
    FlattenAppend(InputOptions(inFile), rest);
    FlattenInput(inFile);
  }

  lemma {:induction false} FlattenAppend(a: seq<(Flag, string)>, b: seq<(Flag, string)>)
    ensures Flatten(a + b) == Flatten(a) + Flatten(b)
  {
    if a != [] {
      assert (a + b)[0] == a[0];
      assert (a + b)[1..] == a[1..] + b;
      FlattenAppend(a[1..], b);
    } else {
      assert a + b == b;
    }
  }

  lemma OptionsFacts(inFile: string, codec: Codec, branch: Branch, crf: nat, preset: string,
                     fps: Option<string>, audioBitrate: string)
    ensures var o := InputOptions(inFile) + VideoOptions(codec, branch, crf, preset)
                     + OutputOptions(codec, audioBitrate, fps);
      && Lookup(o, VideoCodec) == Some(EncoderName(codec, branch))
      && Lookup(o, VideoTag) == Some(ContainerTag(codec))
      && Lookup(o, FrameRate) == fps
      && Lookup(o, AudioCodec) == Some("aac") && Lookup(o, AudioBitrate) == Some(audioBitrate)
      && Lookup(o, MovFlags) == Some("+faststart")
      && CarriesHlgTags(o)
  {
    var v := VideoOptions(codec, branch, crf, preset);
    var t := OutputOptions(codec, audioBitrate, fps);
    VideoOptionsFacts(codec, branch, crf, preset);
    VideoAvoidsInputs(codec, branch, crf, preset);
    OutputOptionsFacts(codec, audioBitrate, fps);
    JoinedOptions(inFile, v, t, EncoderName(codec, branch));
  }

  /** What the joined options carry, from what the video and the output
      parts carry on their own. */
  lemma JoinedOptions(inFile: string, v: seq<(Flag, string)>, t: seq<(Flag, string)>, name: string)
    requires Lookup(v, VideoCodec) == Some(name) && CarriesHlgTags(v)
    requires forall flag | IsOutputFlag(flag) :: Lookup(v, flag) == None
    requires forall j | 0 <= j < |v| :: v[j].0 != Input && v[j].0 != Map
    ensures var o := InputOptions(inFile) + v + t;
      && Lookup(o, VideoCodec) == Some(name)
      && (forall flag | IsOutputFlag(flag) :: Lookup(o, flag) == Lookup(t, flag))
      && CarriesHlgTags(o)
  {
    var o := InputOptions(inFile) + v + t;
    ThroughInputs(inFile, v, t, VideoCodec);
    forall flag | IsOutputFlag(flag)
      ensures Lookup(o, flag) == Lookup(t, flag)
    {
      ThroughInputs(inFile, v, t, flag);
    }
    forall flag | Lookup(v, flag).Some?
      ensures Lookup(o, flag) == Lookup(v, flag)
    {
      if flag != Input && flag != Map {
        ThroughInputs(inFile, v, t, flag);
      } else {
        LookupNone(v, flag);
      }
    }
    HlgThrough(o, v);
  }

  /** After the input options, the first of two option groups that carries
      a flag decides its value. */
  lemma ThroughInputs(inFile: string, v: seq<(Flag, string)>, t: seq<(Flag, string)>, flag: Flag)
    requires flag != Input && flag != Map
    ensures Lookup(InputOptions(inFile) + v + t, flag)
         == if Lookup(v, flag).Some? then Lookup(v, flag) else Lookup(t, flag)
  {
    var i := InputOptions(inFile);
    LookupAppend(i, v, flag);
    LookupAppend(i + v, t, flag);
    InputOptionsFacts(inFile, flag);
  }

  /** The HLG tags of `v` survive into any `o` that agrees with `v` on
      every flag `v` carries. */
  lemma HlgThrough(o: seq<(Flag, string)>, v: seq<(Flag, string)>)
    requires CarriesHlgTags(v) && Lookup(v, VideoCodec).Some?
    requires forall flag | Lookup(v, flag).Some? :: Lookup(o, flag) == Lookup(v, flag)
    ensures CarriesHlgTags(o)
  {
    var enc := Lookup(v, VideoCodec);
    assert Lookup(o, VideoCodec) == enc;
    if enc == Some("libx265") {
      assert Lookup(o, X265Params) == Lookup(v, X265Params);
    } else if enc == Some("libx264") {
      assert Lookup(o, X264Params) == Lookup(v, X264Params);
    } else {
      assert Lookup(o, ColorPrimaries) == Lookup(v, ColorPrimaries);
      assert Lookup(o, ColorTrc) == Lookup(v, ColorTrc);
      assert Lookup(o, ColorSpace) == Lookup(v, ColorSpace);
    }
  }

  lemma VideoAvoidsInputs(codec: Codec, branch: Branch, crf: nat, preset: string)
    ensures var v := VideoOptions(codec, branch, crf, preset);
      forall j | 0 <= j < |v| :: v[j].0 != Input && v[j].0 != Map
  {
  }

  lemma InputOptionsFacts(inFile: string, flag: Flag)
    ensures flag != Input && flag != Map ==> Lookup(InputOptions(inFile), flag) == None
  {
    LookupUnfold();
  }

  lemma OutputOptionsFacts(codec: Codec, audioBitrate: string, fps: Option<string>)
    ensures var t := OutputOptions(codec, audioBitrate, fps);
      && Lookup(t, VideoTag) == Some(ContainerTag(codec))
      && Lookup(t, FrameRate) == fps
      && Lookup(t, AudioCodec) == Some("aac") && Lookup(t, AudioBitrate) == Some(audioBitrate)
      && Lookup(t, MovFlags) == Some("+faststart")
  {
    LookupUnfold();
  }

  /** `build_ffmpeg_cmd` of the command-line tool: always libx265. */
  function BuildCore(ffmpeg: string, inFile: string, outFile: string, crf: nat, preset: string,
                     fps: Option<string>, audioBitrate: string, overwrite: bool): (argv: seq<string>)
    ensures |argv| == if fps.None? then 28 else 30
    ensures argv[2] == (if overwrite then "-y" else "-n")
    ensures argv[|argv| - 1] == outFile
    ensures argv[9] == "-c:v" && argv[10] == "libx265"
    ensures argv[15] == "-pix_fmt" && argv[16] == "yuv420p10le"
    ensures argv[17] == "-x265-params" && ParamsCarryHlg(Some(argv[18]))
    ensures argv[19] == "-tag:v" && argv[20] == "hvc1"
  {
    EncoderParamsCarryHlg(Hevc);
    var front := [ffmpeg, "-hide_banner", if overwrite then "-y" else "-n"]
      + ["-i", inFile, "-map", "0:v:0", "-map", "0:a?"];
    var video := ["-c:v", "libx265", "-preset", preset, "-crf", NatToString(crf),
      "-pix_fmt", "yuv420p10le", "-x265-params", EncoderParams(Hevc)];
    var back := ["-tag:v", "hvc1", "-c:a", "aac", "-b:a", audioBitrate, "-movflags", "+faststart"]
      + (if fps.Some? then ["-r", fps.value] else []) + [outFile];
    CorePositions(front, video, back);
    front + video + back
  }

  /** Where the three parts of the command-line builder's vector land. */
  lemma CorePositions(front: seq<string>, video: seq<string>, back: seq<string>)
    requires |front| == 9 && |video| == 10 && |back| >= 2
    ensures var a := front + video + back;
      && a[2] == front[2] && a[|a| - 1] == back[|back| - 1]
      && a[9..19] == video && a[19] == back[0] && a[20] == back[1]
  {
  }

  // ---------------------------------------------------------------------
  // Properties relating the builders and their branches

  /** The command-line builder is the GUI builder's HEVC software branch. */
  lemma CoreIsGpuSoftwareHevc(ffmpeg: string, inFile: string, outFile: string, crf: nat,
                              preset: string, fps: Option<string>, audioBitrate: string, overwrite: bool)
    ensures BuildCore(ffmpeg, inFile, outFile, crf, preset, fps, audioBitrate, overwrite)
         == BuildGpu(ffmpeg, inFile, outFile, Hevc, crf, preset, fps, audioBitrate, overwrite, None)
  {
    var a := InputOptions(inFile);
    var b := VideoOptions(Hevc, Software, crf, preset);
    var c := OutputOptions(Hevc, audioBitrate, fps);
    var head := [ffmpeg, "-hide_banner", if overwrite then "-y" else "-n"];
    var fpsPart := if fps.Some? then ["-r", fps.value] else [];
    var p1 := ["-i", inFile, "-map", "0:v:0", "-map", "0:a?"];
    var p2 := ["-c:v", "libx265", "-preset", preset, "-crf", NatToString(crf),
               "-pix_fmt", "yuv420p10le", "-x265-params", EncoderParams(Hevc)];
    var p3 := ["-tag:v", "hvc1", "-c:a", "aac", "-b:a", audioBitrate, "-movflags", "+faststart"];
    assert BuildGpu(ffmpeg, inFile, outFile, Hevc, crf, preset, fps, audioBitrate, overwrite, None)
        == head + Flatten(a + b + c) + [outFile];
    FlattenAppend(a, b);
    FlattenAppend(a + b, c);
    FlattenInput(inFile);
    FlattenSoftwareHevc(crf, preset);
    FlattenOutput(Hevc, audioBitrate, fps);
    assert Flatten(a + b + c) == p1 + p2 + p3 + fpsPart;
    Regroup(head, p1, p2, p3, fpsPart, [outFile]);
  }

  lemma Regroup<T>(h: seq<T>, a: seq<T>, b: seq<T>, c: seq<T>, d: seq<T>, e: seq<T>)
    ensures h + (a + b + c + d) + e == (h + a) + b + (c + d + e)
  {
  }

  lemma FlattenInput(inFile: string)
    ensures Flatten(InputOptions(inFile)) == ["-i", inFile, "-map", "0:v:0", "-map", "0:a?"]
  {
    FlattenUnfold();
  }

  lemma FlattenSoftwareHevc(crf: nat, preset: string)
    ensures Flatten(VideoOptions(Hevc, Software, crf, preset))
         == ["-c:v", "libx265", "-preset", preset, "-crf", NatToString(crf),
             "-pix_fmt", "yuv420p10le", "-x265-params", EncoderParams(Hevc)]
  {
    Flatten5((VideoCodec, "libx265"), (Preset, preset), (Crf, NatToString(crf)), (PixFmt, "yuv420p10le"),
             (X265Params, EncoderParams(Hevc)));
  }

  lemma Flatten5(a: (Flag, string), b: (Flag, string), c: (Flag, string), d: (Flag, string), e: (Flag, string))
    ensures Flatten([a, b, c, d, e])
         == [FlagText(a.0), a.1, FlagText(b.0), b.1, FlagText(c.0), c.1, FlagText(d.0), d.1, FlagText(e.0), e.1]
  {
    FlattenOne(e.0, e.1);
    FlattenCons(d, [e]);
    FlattenCons(c, [d, e]);
    FlattenCons(b, [c, d, e]);
    FlattenCons(a, [b, c, d, e]);
  }

  lemma FlattenCons(x: (Flag, string), rest: seq<(Flag, string)>)
    ensures Flatten([x] + rest) == [FlagText(x.0), x.1] + Flatten(rest)
  {
    assert ([x] + rest)[1..] == rest;
  }

  lemma FlattenOutput(codec: Codec, audioBitrate: string, fps: Option<string>)
    ensures Flatten(OutputOptions(codec, audioBitrate, fps))
         == ["-tag:v", ContainerTag(codec), "-c:a", "aac", "-b:a", audioBitrate, "-movflags", "+faststart"]
            + (if fps.Some? then ["-r", fps.value] else [])
  {
    var fixed := [(VideoTag, ContainerTag(codec)), (AudioCodec, "aac"), (AudioBitrate, audioBitrate),
                  (MovFlags, "+faststart")];
    var extra: seq<(Flag, string)> := if fps.Some? then [(FrameRate, fps.value)] else [];
    assert OutputOptions(codec, audioBitrate, fps) == fixed + extra;
    FlattenAppend(fixed, extra);
    FlattenFixedOutput(ContainerTag(codec), audioBitrate);
    if fps.Some? {
      FlattenOne(FrameRate, fps.value);
    }
  }

  lemma FlattenFixedOutput(tag: string, audioBitrate: string)
    ensures Flatten([(VideoTag, tag), (AudioCodec, "aac"), (AudioBitrate, audioBitrate), (MovFlags, "+faststart")])
         == ["-tag:v", tag, "-c:a", "aac", "-b:a", audioBitrate, "-movflags", "+faststart"]
  {
    FlattenUnfold();
  }

  lemma FlattenOne(flag: Flag, value: string)
    ensures Flatten([(flag, value)]) == [FlagText(flag), value]
  {
    assert [(flag, value)][1..] == [];
  }

  /** An HEVC encoder name outside the four known ones builds exactly the
      libx265 command. */
  lemma UnknownHevcEncoderIsSoftware(ffmpeg: string, inFile: string, outFile: string, crf: nat,
                                     preset: string, fps: Option<string>, audioBitrate: string,
                                     overwrite: bool, encoder: string)
    requires encoder !in {"h265_nvenc", "hevc_amf", "hevc_qsv", "hevc_videotoolbox"}
    ensures BuildGpu(ffmpeg, inFile, outFile, Hevc, crf, preset, fps, audioBitrate, overwrite, Some(encoder))
         == BuildGpu(ffmpeg, inFile, outFile, Hevc, crf, preset, fps, audioBitrate, overwrite, None)
  {
  }

  /** Rate control per branch: NVENC uses `-cq` and no `-crf`; AMF pins
      `-qmin` and `-qmax` to the same value and uses `p010le` for HEVC;
      every other branch passes `-crf`. */
  lemma QualityFlags(codec: Codec, branch: Branch, crf: nat, preset: string)
    ensures var v := VideoOptions(codec, branch, crf, preset);
      var q := Some(NatToString(crf));
      && (branch == Nvenc ==> Lookup(v, Cq) == q && Lookup(v, Crf) == None)
      && (branch == Amf ==> Lookup(v, QMin) == q && Lookup(v, QMax) == q && Lookup(v, Crf) == None
                            && Lookup(v, PixFmt) == Some(if codec == Hevc then "p010le" else "yuv420p"))
      && (branch != Nvenc && branch != Amf ==> Lookup(v, Crf) == q && Lookup(v, Cq) == None)
  {
    var name, q, pixfmt := EncoderName(codec, branch), NatToString(crf), PixelFormat(codec, branch);
    match branch
    case Nvenc => FourThenColours(name, (Preset, Lower(preset)), Cq, q, pixfmt);
    case Amf => AmfThenColours(name, q, pixfmt);
    case Qsv => FourThenColours(name, (Preset, Lower(preset)), Crf, q, pixfmt);
    case VideoToolbox => FourThenColours(name, (Quality, "medium"), Crf, q, pixfmt);
    case Software => SoftwareList(name, preset, q, pixfmt, ParamsFlag(codec), EncoderParams(codec));
  }

  /** For H.264 the branch is chosen by vendor substring, NVENC first. */
  lemma H264BranchBySubstring(encoder: string)
    ensures Contains(encoder, "nvenc") ==> HardwareBranch(H264, encoder) == Nvenc
    ensures !Contains(encoder, "nvenc") && Contains(encoder, "amf") ==> HardwareBranch(H264, encoder) == Amf
    ensures HardwareBranch(H264, encoder) == Software
        <==> !Contains(encoder, "nvenc") && !Contains(encoder, "amf") && !Contains(encoder, "qsv")
             && !Contains(encoder, "videotoolbox")
  {
    assert "h264_" + "nvenc" == "h264_nvenc";
    assert "h264_" + "amf" == "h264_amf";
    assert "h264_" + "qsv" == "h264_qsv";
    assert "h264_" + "videotoolbox" == "h264_videotoolbox";
    SubstringOfSubstring(encoder, "h264_", "nvenc");
    SubstringOfSubstring(encoder, "h264_", "amf");
    SubstringOfSubstring(encoder, "h264_", "qsv");
    SubstringOfSubstring(encoder, "h264_", "videotoolbox");
  }

  lemma SubstringOfSubstring(s: string, a: string, b: string)
    ensures Contains(s, a + b) ==> Contains(s, b)
  {
    if Contains(s, a + b) {
      var i :| 0 <= i <= |s| - |a + b| && OccursAt(s, a + b, i);
      assert s[i + |a|..i + |a| + |b|] == (a + b)[|a|..];
      assert OccursAt(s, b, i + |a|);
    }
  }
}
