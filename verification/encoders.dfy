/**
  Which hardware encoder to use (sonyToPhoto.py).

  `detect_gpu_encoders` looks for the known encoder names in the text that
  `ffmpeg -encoders` prints; `get_default_gpu_encoder` picks the encoder
  the GUI starts with; `process_file` turns the requested encoder into the
  list of candidates it tries in turn. The text printed by ffmpeg, whether
  ffmpeg could be located at all, the stored configuration and the GPU
  vendor are inputs.
 */
module Encoders {
  import opened Common
  import opened Command

  // ---------------------------------------------------------------------
  // Detection

  /** The encoders known for each codec, with their display names, in the
      order of the source's dictionary: NVIDIA, AMD, Intel, Apple. */
  function EncoderTable(codec: Codec): seq<(string, string)> {
    if codec == Hevc then
      [("h265_nvenc", "NVIDIA (h265_nvenc)"), ("hevc_amf", "AMD (hevc_amf)"),
       ("hevc_qsv", "Intel (hevc_qsv)"), ("hevc_videotoolbox", "Apple Silicon (hevc_videotoolbox)")]
    else
      [("h264_nvenc", "NVIDIA (h264_nvenc)"), ("h264_amf", "AMD (h264_amf)"),
       ("h264_qsv", "Intel (h264_qsv)"), ("h264_videotoolbox", "Apple Silicon (h264_videotoolbox)")]
  }

  function NvencName(codec: Codec): string { if codec == Hevc then "h265_nvenc" else "h264_nvenc" }
  function AmfName(codec: Codec): string { if codec == Hevc then "hevc_amf" else "h264_amf" }
  function QsvName(codec: Codec): string { if codec == Hevc then "hevc_qsv" else "h264_qsv" }
  function VideoToolboxName(codec: Codec): string {
    if codec == Hevc then "hevc_videotoolbox" else "h264_videotoolbox"
  }

  function Keys(entries: seq<(string, string)>): (r: seq<string>)
    ensures |r| == |entries|
    ensures forall k :: 0 <= k < |r| ==> r[k] == entries[k].0
  {
    if entries == [] then [] else [entries[0].0] + Keys(entries[1..])
  }

  /** The entries whose key occurs in the listing, in table order. */
  function Filter(entries: seq<(string, string)>, listing: string): (r: seq<(string, string)>)
    ensures |r| <= |entries|
    ensures forall e :: e in r <==> e in entries && Contains(listing, e.0)
  {
    if entries == [] then []
    else (if Contains(listing, entries[0].0) then [entries[0]] else []) + Filter(entries[1..], listing)
  }

  /** `detect_gpu_encoders`: `listing` is the probe's output, None when
      running the probe raised. */
  function DetectGpuEncoders(codec: Codec, listing: Option<string>): (r: seq<(string, string)>)
    ensures listing.None? ==> r == []
    ensures forall e :: e in r <==> listing.Some? && e in EncoderTable(codec) && Contains(listing.value, e.0)
  {
    if listing.None? then [] else Filter(EncoderTable(codec), listing.value)
  }

  /** The detected encoder names. */
  function Detected(codec: Codec, listing: Option<string>): seq<string> {
    Keys(DetectGpuEncoders(codec, listing))
  }

  lemma {:induction false} KeysFilter(entries: seq<(string, string)>, listing: string)
    ensures forall name :: name in Keys(Filter(entries, listing)) <==> name in Keys(entries) && Contains(listing, name)
  {
    if entries != [] {
      KeysFilter(entries[1..], listing);
      var head := if Contains(listing, entries[0].0) then [entries[0]] else [];
      KeysAppend(head, Filter(entries[1..], listing));
      assert Keys(entries) == [entries[0].0] + Keys(entries[1..]);
    }
  }

  lemma {:induction false} KeysAppend(a: seq<(string, string)>, b: seq<(string, string)>)
    ensures Keys(a + b) == Keys(a) + Keys(b)
  {
    if a != [] {
      assert (a + b)[1..] == a[1..] + b;
      KeysAppend(a[1..], b);
    } else {
      assert a + b == b;
    }
  }

  /** A name is detected exactly when it is one of the codec's four known
      names and occurs in the probe's output. */
  lemma DetectedIff(codec: Codec, listing: Option<string>, name: string)
    ensures name in Detected(codec, listing)
        <==> listing.Some? && Contains(listing.value, name)
             && name in [NvencName(codec), AmfName(codec), QsvName(codec), VideoToolboxName(codec)]
  {
    if listing.Some? {
      KeysFilter(EncoderTable(codec), listing.value);
      assert Keys(EncoderTable(codec)) == [NvencName(codec), AmfName(codec), QsvName(codec), VideoToolboxName(codec)];
    }
  }

  // ---------------------------------------------------------------------
  // The encoder the GUI starts with

  /** NVIDIA, then Intel, then AMD. */
  function PriorityOrder(codec: Codec): seq<string> {
    [NvencName(codec), QsvName(codec), AmfName(codec)]
  }

  /** The encoder that goes with a GPU vendor, if the vendor is one of the
      three known ones. */
  function BrandEncoder(codec: Codec, brand: string): Option<string> {
    if brand == "NVIDIA" then Some(NvencName(codec))
    else if brand == "AMD" then Some(AmfName(codec))
    else if brand == "Intel" then Some(QsvName(codec))
    else None
  }

  /** The configuration key that remembers the last encoder that worked. */
  function LastEncoderKey(codec: Codec): string {
    "last_gpu_encoder_" + CodecName(codec)
  }

  /** The remembered encoder, "" when there is none (Python's falsy value). */
  function LastEncoder(codec: Codec, config: map<string, string>): string {
    if LastEncoderKey(codec) in config then config[LastEncoderKey(codec)] else ""
  }

  /** The first name of `order` that is in `names`. */
  function FirstOf(order: seq<string>, names: seq<string>): (r: Option<string>)
    ensures r.Some? ==> r.value in order && r.value in names
    ensures r.None? <==> forall k :: 0 <= k < |order| ==> order[k] !in names
  {
    if order == [] then None
    else if order[0] in names then Some(order[0])
    else FirstOf(order[1..], names)
  }

  /** `get_default_gpu_encoder`: the remembered encoder if it is detected;
      else the vendor's encoder if it is detected, and for an Intel GPU
      nothing else; else NVIDIA, Intel, AMD in that order; else the first
      detected encoder. `located` is false when ffmpeg cannot be found, and
      `brand` is the vendor the GPU probe reports. */
  function DefaultGpuEncoder(codec: Codec, located: bool, listing: Option<string>,
                             config: map<string, string>, brand: Option<string>): (r: Option<string>)
    ensures r.Some? ==> located && r.value in Detected(codec, listing)
  {
    var detected := DetectGpuEncoders(codec, listing);
    var names := Keys(detected);
    var last := LastEncoder(codec, config);
    if !located || detected == [] then None
    else if last != "" && last in names then Some(last)
    else if brand.Some? && brand.value != "" && BrandEncoder(codec, brand.value).Some?
            && BrandEncoder(codec, brand.value).value in names then
      BrandEncoder(codec, brand.value)
    else if brand == Some("Intel") then None
    else if FirstOf(PriorityOrder(codec), names).Some? then FirstOf(PriorityOrder(codec), names)
    else Some(detected[0].0)
  }

  /** No encoder is chosen exactly when ffmpeg cannot be found, nothing is
      detected, or the GPU is an Intel one whose encoder is not detected and
      no remembered encoder is usable. */
  lemma DefaultGpuEncoderNone(codec: Codec, located: bool, listing: Option<string>,
                              config: map<string, string>, brand: Option<string>)
    ensures var names := Detected(codec, listing);
      var last := LastEncoder(codec, config);
      DefaultGpuEncoder(codec, located, listing, config, brand).None?
      <==> || !located || names == []
           || (!(last != "" && last in names) && brand == Some("Intel") && QsvName(codec) !in names)
  {
    var names := Detected(codec, listing);
    var last := LastEncoder(codec, config);
    if located && names != [] && !(last != "" && last in names) {
      if brand == Some("Intel") {
        assert BrandEncoder(codec, "Intel") == Some(QsvName(codec));
      } else {
        DefaultIsSome(codec, listing, config, brand);
      }
    }
  }

  lemma DefaultIsSome(codec: Codec, listing: Option<string>, config: map<string, string>, brand: Option<string>)
    requires Detected(codec, listing) != [] && brand != Some("Intel")
    ensures DefaultGpuEncoder(codec, true, listing, config, brand).Some?
  {
  }

  /** An encoder remembered in the configuration wins whenever it is
      detected. */
  lemma RememberedEncoderWins(codec: Codec, listing: Option<string>, config: map<string, string>,
                              brand: Option<string>)
    requires LastEncoder(codec, config) != "" && LastEncoder(codec, config) in Detected(codec, listing)
    ensures DefaultGpuEncoder(codec, true, listing, config, brand) == Some(LastEncoder(codec, config))
  {
  }

  /** When neither a remembered encoder nor the vendor decides and none of
      NVIDIA, Intel and AMD is detected, the only encoder left to pick is
      Apple's. */
  lemma LastResortIsVideoToolbox(codec: Codec, listing: Option<string>, config: map<string, string>,
                                 brand: Option<string>)
    requires Detected(codec, listing) != []
    requires forall k :: 0 <= k < 3 ==> PriorityOrder(codec)[k] !in Detected(codec, listing)
    ensures DefaultGpuEncoder(codec, true, listing, config, brand).Some? ==>
      DefaultGpuEncoder(codec, true, listing, config, brand) == Some(VideoToolboxName(codec))
  {
    var d := Detected(codec, listing);
    var r := DefaultGpuEncoder(codec, true, listing, config, brand);
    if r.Some? {
      DetectedIff(codec, listing, r.value);
      assert r.value !in PriorityOrder(codec);
    }
  }

  /** A remembered encoder that is not usable. */
  predicate NoUsableLast(codec: Codec, listing: Option<string>, config: map<string, string>) {
    !(LastEncoder(codec, config) != "" && LastEncoder(codec, config) in Detected(codec, listing))
  }

  /** Without a usable remembered encoder, the encoder of the reported GPU
      vendor is chosen whenever it is detected. */
  lemma BrandEncoderWins(codec: Codec, listing: Option<string>, config: map<string, string>, brand: string)
    requires NoUsableLast(codec, listing, config)
    requires BrandEncoder(codec, brand).Some? && BrandEncoder(codec, brand).value in Detected(codec, listing)
    ensures DefaultGpuEncoder(codec, true, listing, config, Some(brand)) == BrandEncoder(codec, brand)
  {
  }

  /** When neither a remembered encoder nor the vendor decides and the GPU
      is not an Intel one, the first of NVIDIA, Intel and AMD that is
      detected is chosen. */
  lemma PriorityEncoderWins(codec: Codec, listing: Option<string>, config: map<string, string>,
                            brand: Option<string>, k: nat)
    requires k < 3
    requires NoUsableLast(codec, listing, config)
    requires brand.None? || BrandEncoder(codec, brand.value).None?
             || BrandEncoder(codec, brand.value).value !in Detected(codec, listing)
    requires brand != Some("Intel")
    requires PriorityOrder(codec)[k] in Detected(codec, listing)
    requires forall j | 0 <= j < k :: PriorityOrder(codec)[j] !in Detected(codec, listing)
    ensures DefaultGpuEncoder(codec, true, listing, config, brand) == Some(PriorityOrder(codec)[k])
  {
    FirstOfAt(PriorityOrder(codec), Detected(codec, listing), k);
  }

  /** The first name of `order` in `names` is the one at `k` when no earlier
      one is. */
  lemma {:induction false} FirstOfAt(order: seq<string>, names: seq<string>, k: nat)
    requires k < |order| && order[k] in names
    requires forall j | 0 <= j < k :: order[j] !in names
    ensures FirstOf(order, names) == Some(order[k])
  {
    if k > 0 {
      FirstOfAt(order[1..], names, k - 1);
    }
  }

  // ---------------------------------------------------------------------
  // The candidates `process_file` tries

  /** A candidate: a hardware encoder by name, or the CPU encoder. */
  datatype Choice = Cpu | Gpu(encoder: string)

  /** Appends, in order, the names of `order` that are in `names` and not
      yet in `acc`. */
  function AddInOrder(acc: seq<string>, order: seq<string>, names: seq<string>): (r: seq<string>)
    ensures |acc| <= |r| <= |acc| + |order|
    ensures r[..|acc|] == acc
    ensures forall e :: e in r <==> e in acc || (e in order && e in names)
    decreases |order|
  {
    if order == [] then acc
    else
      var next := if order[0] in names && order[0] !in acc then acc + [order[0]] else acc;
      var r := AddInOrder(next, order[1..], names);
      assert r[..|acc|] == next[..|acc|];
      r
  }

  /** The names of `s` come in the order of `order`: any two of them are
      found in `order` with the first one earlier. */
  predicate FollowsOrder(s: seq<string>, order: seq<string>) {
    forall a, b | 0 <= a < b < |s| :: InOrder(s[a], s[b], order)
  }

  /** `u` and `v` are found in `order`, `u` before `v`. */
  predicate InOrder(u: string, v: string, order: seq<string>) {
    exists x, y | 0 <= x < y < |order| :: order[x] == u && order[y] == v
  }

  /** The names appended come from `order` and keep its order. */
  lemma {:induction false} AddedInOrder(acc: seq<string>, order: seq<string>, names: seq<string>)
    ensures var r := AddInOrder(acc, order, names);
      && (forall k | |acc| <= k < |r| :: r[k] in order)
      && FollowsOrder(r[|acc|..], order)
    decreases |order|
  {
    if order != [] {
      var added := order[0] in names && order[0] !in acc;
      var next := if added then acc + [order[0]] else acc;
      var r := AddInOrder(acc, order, names);
      AddedInOrder(next, order[1..], names);
      assert r == AddInOrder(next, order[1..], names);
      AddedStep(r, acc, next, order, added);
    }
  }

  /** One step of `AddInOrder`: what holds of the names appended after
      `next` holds of those appended after `acc`. */
  lemma AddedStep(r: seq<string>, acc: seq<string>, next: seq<string>, order: seq<string>, added: bool)
    requires order != []
    requires added ==> next == acc + [order[0]]
    requires !added ==> next == acc
    requires |next| <= |r| && r[..|next|] == next
    requires forall k | |next| <= k < |r| :: r[k] in order[1..]
    requires FollowsOrder(r[|next|..], order[1..])
    ensures forall k | |acc| <= k < |r| :: r[k] in order
    ensures FollowsOrder(r[|acc|..], order)
  {
    forall k | |next| <= k < |r|
      ensures r[k] in order
    {
      assert r[k] in order[1..];
    }
    if added {
      assert r[|acc|] == next[|acc|] == order[0];
    }
    FollowsOrderShift(r[|acc|..], r[|next|..], order, added);
  }

  /** Extending an ordered tail by the first name of `order`, or keeping it,
      stays in the order of `order`. */
  lemma FollowsOrderShift(t: seq<string>, tail: seq<string>, order: seq<string>, added: bool)
    requires order != []
    requires added ==> |t| == |tail| + 1 && t[0] == order[0] && t[1..] == tail
    requires !added ==> t == tail
    requires forall k | 0 <= k < |tail| :: tail[k] in order[1..]
    requires FollowsOrder(tail, order[1..])
    ensures FollowsOrder(t, order)
  {
    forall a, b | 0 <= a < b < |t|
      ensures InOrder(t[a], t[b], order)
    {
      var a', b' := if added then a - 1 else a, if added then b - 1 else b;
      assert t[b] == tail[b'];
      if added && a == 0 {
        var y :| 0 <= y < |order[1..]| && order[1..][y] == tail[b'];
        assert order[0] == t[a] && order[y + 1] == t[b];
      } else {
        assert t[a] == tail[a'];
        assert InOrder(tail[a'], tail[b'], order[1..]);
        var x, y :| 0 <= x < y < |order[1..]| && order[1..][x] == tail[a'] && order[1..][y] == tail[b'];
        assert order[x + 1] == t[a] && order[y + 1] == t[b];
      }
    }
  }

  lemma {:induction false} AddInOrderDistinct(acc: seq<string>, order: seq<string>, names: seq<string>)
    requires Distinct(acc)
    ensures Distinct(AddInOrder(acc, order, names))
    decreases |order|
  {
    if order != [] {
      var next := if order[0] in names && order[0] !in acc then acc + [order[0]] else acc;
      AddInOrderDistinct(next, order[1..], names);
    }
  }

  predicate Distinct<T(==)>(s: seq<T>) {
    forall i, j :: 0 <= i < j < |s| ==> s[i] != s[j]
  }

  function AsGpu(names: seq<string>): (r: seq<Choice>)
    ensures |r| == |names|
    ensures forall k :: 0 <= k < |r| ==> r[k] == Gpu(names[k])
  {
    if names == [] then [] else [Gpu(names[0])] + AsGpu(names[1..])
  }

  /** The encoders tried for a requested (non-empty) encoder: if ffmpeg
      cannot be located, just the requested one; otherwise the requested one
      if it is detected, then the detected ones of NVIDIA, Intel, AMD not
      already listed; when that is empty, the CPU. */
  function Candidates(codec: Codec, requested: string, located: bool, listing: Option<string>): (r: seq<Choice>)
    ensures 1 <= |r| <= 4
    ensures !located ==> r == [Gpu(requested)]
  {
    if !located then [Gpu(requested)]
    else Ranked(requested, PriorityOrder(codec), Detected(codec, listing))
  }

  /** The candidates drawn from the detected `names`: `requested` first when
      detected, then those of `order`, or the CPU when there are none. */
  function Ranked(requested: string, order: seq<string>, names: seq<string>): (r: seq<Choice>)
    ensures 1 <= |r| <= 1 + |order|
  {
    var first := if requested in names then [requested] else [];
    var list := AddInOrder(first, order, names);
    if list == [] then [Cpu] else AsGpu(list)
  }

  /** What the candidate list promises once ffmpeg is located: the requested
      encoder comes first exactly when it is detected; every hardware
      candidate is detected, and is the requested one or one of NVIDIA,
      Intel and AMD; no candidate appears twice; the CPU is the only
      candidate exactly when none of those is detected. */
  lemma CandidatesFacts(codec: Codec, requested: string, listing: Option<string>)
    ensures var r := Candidates(codec, requested, true, listing);
      var names := Detected(codec, listing);
      && (r[0] == Gpu(requested) <==> requested in names)
      && (forall e :: Gpu(e) in r <==> e in names && (e == requested || e in PriorityOrder(codec)))
      && Distinct(r)
      && (r == [Cpu] <==> forall e :: e in names ==> e != requested && e !in PriorityOrder(codec))
      && (r != [Cpu] ==> Cpu !in r)
  {
    var order, names := PriorityOrder(codec), Detected(codec, listing);
    RankedFirst(requested, order, names);
    RankedMembers(requested, order, names);
    RankedDistinct(requested, order, names);
    RankedCpu(requested, order, names);
  }

  lemma RankedFirst(requested: string, order: seq<string>, names: seq<string>)
    ensures Ranked(requested, order, names)[0] == Gpu(requested) <==> requested in names
  {
    var first := if requested in names then [requested] else [];
    var list := AddInOrder(first, order, names);
    if list != [] && requested !in names {
      assert list[0] in order && list[0] in names;
    }
  }

  lemma RankedMembers(requested: string, order: seq<string>, names: seq<string>)
    ensures forall e :: Gpu(e) in Ranked(requested, order, names) <==>
      e in names && (e == requested || e in order)
  {
    var first := if requested in names then [requested] else [];
    var list := AddInOrder(first, order, names);
    var r := Ranked(requested, order, names);
    if list != [] {
      forall e
        ensures Gpu(e) in r <==> e in list
      {
        if Gpu(e) in r {
          var k :| 0 <= k < |r| && r[k] == Gpu(e);
        }
        if e in list {
          var k :| 0 <= k < |list| && list[k] == e;
          assert r[k] == Gpu(e);
        }
      }
    }
  }

  lemma RankedDistinct(requested: string, order: seq<string>, names: seq<string>)
    ensures Distinct(Ranked(requested, order, names))
  {
    var first := if requested in names then [requested] else [];
    AddInOrderDistinct(first, order, names);
  }

  lemma RankedCpu(requested: string, order: seq<string>, names: seq<string>)
    ensures var r := Ranked(requested, order, names);
      && (r == [Cpu] <==> forall e :: e in names ==> e != requested && e !in order)
      && (r != [Cpu] ==> Cpu !in r)
  {
    var first := if requested in names then [requested] else [];
    var list := AddInOrder(first, order, names);
    if list != [] {
      var r := Ranked(requested, order, names);
      assert r[0] == Gpu(list[0]);
      assert list[0] in list;
      assert Cpu !in r by {
        forall k | 0 <= k < |r| ensures r[k] != Cpu { assert r[k] == Gpu(list[k]); }
      }
    }
  }

  /** Two hardware candidates whose encoders come in the order of `order`. */
  predicate GpuInOrder(c: Choice, d: Choice, order: seq<string>) {
    c.Gpu? && d.Gpu? && InOrder(c.encoder, d.encoder, order)
  }

  /** After the requested encoder, the candidates come in the order of
      `order`. */
  lemma RankedOrder(requested: string, order: seq<string>, names: seq<string>)
    ensures var r := Ranked(requested, order, names);
      forall a, b | (if requested in names then 1 else 0) <= a < b < |r| :: GpuInOrder(r[a], r[b], order)
  {
    var first := if requested in names then [requested] else [];
    var list := AddInOrder(first, order, names);
    AddedInOrder(first, order, names);
    if list != [] {
      AsGpuInOrder(list, |first|, order);
    }
  }

  lemma AsGpuInOrder(list: seq<string>, from: nat, order: seq<string>)
    requires from <= |list| && FollowsOrder(list[from..], order)
    ensures forall a, b | from <= a < b < |list| :: GpuInOrder(AsGpu(list)[a], AsGpu(list)[b], order)
  {
    forall a, b | from <= a < b < |list|
      ensures GpuInOrder(AsGpu(list)[a], AsGpu(list)[b], order)
    {
      assert list[from..][a - from] == list[a] && list[from..][b - from] == list[b];
    }
  }

  /** Once ffmpeg is located, the encoders tried after the requested one
      come NVIDIA first, then Intel, then AMD. */
  lemma CandidatesOrder(codec: Codec, requested: string, listing: Option<string>)
    ensures var r := Candidates(codec, requested, true, listing);
      forall a, b | (if requested in Detected(codec, listing) then 1 else 0) <= a < b < |r| ::
        GpuInOrder(r[a], r[b], PriorityOrder(codec))
  {
    var order, names := PriorityOrder(codec), Detected(codec, listing);
    assert Candidates(codec, requested, true, listing) == Ranked(requested, order, names);
    RankedOrder(requested, order, names);
  }

  /** Apple's encoder is only ever tried when it was the one requested. */
  lemma NoUnrequestedVideoToolbox(codec: Codec, requested: string, located: bool, listing: Option<string>)
    requires requested != VideoToolboxName(codec)
    ensures Gpu(VideoToolboxName(codec)) !in Candidates(codec, requested, located, listing)
  {
    if located {
      CandidatesFacts(codec, requested, listing);
      VideoToolboxNotPrioritised(codec);
    }
  }

  lemma VideoToolboxNotPrioritised(codec: Codec)
    ensures VideoToolboxName(codec) !in PriorityOrder(codec)
  {
    assert |VideoToolboxName(codec)| == 17;
    assert forall k | 0 <= k < 3 :: |PriorityOrder(codec)[k]| < 17;
  }
}
