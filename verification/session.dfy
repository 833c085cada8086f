/**
  Where the GUI keeps the remembered hardware encoder (sonyToPhoto.py).

  There are two stores. The configuration file is read and rewritten by
  `save_last_gpu_encoder_global` after every successful hardware run, and
  rewritten whole by `save_config` whenever a setting changes.
  `self.config` is the copy of the file that `load_config` reads once, when
  the window opens, and it is the only one `get_default_gpu_encoder`
  consults. `save_config` writes the two `last_gpu_encoder_*` entries from
  attributes the program never sets, so they are written as null, which
  reads back as no remembered encoder; the model writes them as absent
  entries, which `LastEncoder` reads the same way.
 */
module Session {
  import opened Common
  import opened Command
  import opened Encoders
  import opened Naming
  import opened Executor

  /** The configuration file, and the copy loaded when the window opened. */
  datatype Stores = Stores(file: map<string, string>, loaded: map<string, string>)

  /** The window opens: `self.config = self.load_config()`. */
  function Open(file: map<string, string>): (st: Stores)
    ensures st.file == file && st.loaded == file
  {
    Stores(file, file)
  }

  /** The configuration a task's `process_file` leaves in the file; the
      loaded copy is not touched. */
  function AfterTask(st: Stores, r: Report): (after: Stores)
    ensures after.loaded == st.loaded && after.file == r.config
  {
    st.(file := r.config)
  }

  /** One file processed by the GUI: `process_file` reads and writes the
      file, never the loaded copy, and changes the file only to remember a
      hardware encoder that succeeded. */
  function ProcessTask(st: Stores, inFile: string, s: Settings, gpuEncoder: Option<string>,
                       naming: NamingOptions, w: World): (after: Stores)
    ensures after.loaded == st.loaded
    ensures after.file != st.file ==>
      SavedAfterSuccess(ProcessFile(inFile, s, gpuEncoder, naming, w.(config := st.file)), st.file, s.codec)
  {
    ConfigSavedOnlyOnSuccess(inFile, s, gpuEncoder, naming, w.(config := st.file));
    AfterTask(st, ProcessFile(inFile, s, gpuEncoder, naming, w.(config := st.file)))
  }

  /** The two keys that remember an encoder. */
  predicate IsEncoderKey(k: string) {
    k == LastEncoderKey(Hevc) || k == LastEncoderKey(H264)
  }

  /** `save_config`: the file is replaced by the current settings, and both
      remembered encoders are written as null. */
  function SaveConfig(st: Stores, settings: map<string, string>): (after: Stores)
    ensures after.loaded == st.loaded
    ensures forall codec :: LastEncoder(codec, after.file) == ""
    ensures forall k | !IsEncoderKey(k) :: (k in after.file <==> k in settings)
    ensures forall k | !IsEncoderKey(k) && k in settings :: after.file[k] == settings[k]
  {
    var file := map k | k in settings && !IsEncoderKey(k) :: settings[k];
    assert forall codec :: IsEncoderKey(LastEncoderKey(codec)) by {
      forall codec ensures IsEncoderKey(LastEncoderKey(codec)) {
        if codec == H264 { assert LastEncoderKey(codec) == LastEncoderKey(H264); }
      }
    }
    st.(file := file)
  }

  /** `get_default_gpu_encoder`: it reads the loaded copy. */
  function NextDefault(st: Stores, codec: Codec, located: bool, listing: Option<string>,
                       brand: Option<string>): (r: Option<string>)
    ensures r == DefaultGpuEncoder(codec, located, listing, st.loaded, brand)
    ensures r.Some? ==> located && r.value in Detected(codec, listing)
  {
    DefaultGpuEncoder(codec, located, listing, st.loaded, brand)
  }

  // ---------------------------------------------------------------------
  // What the program does with an encoder that succeeded

  /** Within one session the choice of default never changes, whatever the
      tasks save and whatever settings are saved. */
  lemma SessionDefaultIsFixed(st: Stores, r: Report, settings: map<string, string>, codec: Codec,
                              located: bool, listing: Option<string>, brand: Option<string>)
    ensures NextDefault(AfterTask(st, r), codec, located, listing, brand) == NextDefault(st, codec, located, listing, brand)
    ensures NextDefault(SaveConfig(st, settings), codec, located, listing, brand)
         == NextDefault(st, codec, located, listing, brand)
  {
  }

  /** So an encoder that took over from a failed one is not the next
      default: with an NVIDIA GPU, nothing remembered, NVIDIA's and Intel's
      HEVC encoders detected, NVIDIA's failing and Intel's succeeding, the
      file remembers Intel's encoder and the next task still starts with
      NVIDIA's. */
  lemma FallbackEncoderNotNextDefault(st: Stores, listing: Option<string>, name: string,
                                      attempt: Choice -> Attempt)
    requires Detected(Hevc, listing) == ["h265_nvenc", "hevc_qsv"]
    requires LastEncoder(Hevc, st.loaded) == ""
    requires attempt(Gpu("h265_nvenc")).exit == Code(1) && attempt(Gpu("hevc_qsv")).exit == Code(0)
    ensures var r := Fallback(Candidates(Hevc, "h265_nvenc", true, listing), "h265_nvenc", name, Hevc,
                              attempt, st.file);
      var after := AfterTask(st, r);
      && r.success && LastEncoder(Hevc, after.file) == "hevc_qsv"
      && NextDefault(after, Hevc, true, listing, Some("NVIDIA")) == Some("h265_nvenc")
  {
    CandidatesNvencQsv(listing);
    SecondSucceeds("h265_nvenc", "hevc_qsv", name, Hevc, attempt, st.file);
    BrandEncoderWins(Hevc, listing, st.loaded, "NVIDIA");
  }

  /** The candidates when NVIDIA's encoder is requested and only it and
      Intel's are detected. */
  lemma CandidatesNvencQsv(listing: Option<string>)
    requires Detected(Hevc, listing) == ["h265_nvenc", "hevc_qsv"]
    ensures Candidates(Hevc, "h265_nvenc", true, listing) == [Gpu("h265_nvenc"), Gpu("hevc_qsv")]
  {
    NvencThenQsv(Detected(Hevc, listing));
  }

  /** Of two hardware candidates, the first failing and the second
      succeeding: the second is saved. */
  lemma SecondSucceeds(a: string, b: string, name: string, codec: Codec, attempt: Choice -> Attempt,
                       config: map<string, string>)
    requires attempt(Gpu(a)).exit == Code(1) && attempt(Gpu(b)).exit == Code(0)
    ensures var r := Fallback([Gpu(a), Gpu(b)], a, name, codec, attempt, config);
      r.success && r.config == SaveLastGpuEncoder(config, codec, b)
  {
    assert [Gpu(a), Gpu(b)][1..] == [Gpu(b)];
  }

  lemma NvencThenQsv(names: seq<string>)
    requires names == ["h265_nvenc", "hevc_qsv"]
    ensures Ranked("h265_nvenc", PriorityOrder(Hevc), names) == [Gpu("h265_nvenc"), Gpu("hevc_qsv")]
  {
    var order := PriorityOrder(Hevc);
    assert order == ["h265_nvenc", "hevc_qsv", "hevc_amf"];
    assert "hevc_amf" !in names;
    assert order[1..][1..] == ["hevc_amf"] && order[1..][1..][1..] == [];
    assert AddInOrder(["h265_nvenc"], order, names) == ["h265_nvenc", "hevc_qsv"];
  }

  /** The saved encoder is seen only after the window is opened again, and
      only if no setting was saved in between. */
  lemma SavedEncoderSeenAfterReopen(st: Stores, r: Report, codec: Codec, encoder: string,
                                    listing: Option<string>, brand: Option<string>)
    requires r.config == SaveLastGpuEncoder(st.file, codec, encoder)
    requires encoder != "" && encoder in Detected(codec, listing)
    ensures NextDefault(Open(AfterTask(st, r).file), codec, true, listing, brand) == Some(encoder)
  {
    RememberedEncoderWins(codec, listing, r.config, brand);
  }

  /** A setting saved after the task makes the reopened window forget the
      encoder. */
  lemma SaveConfigForgetsEncoder(st: Stores, settings: map<string, string>, codec: Codec,
                                 listing: Option<string>)
    ensures NoUsableLast(codec, listing, Open(SaveConfig(st, settings).file).loaded)
  {
  }

  // ---------------------------------------------------------------------
  // What the documentation of `get_default_gpu_encoder` promises: the last
  // encoder that succeeded, read from the configuration file

  /** `save_config` that keeps the remembered encoders the file holds. */
  function SaveConfigKeeping(st: Stores, settings: map<string, string>): (after: Stores)
    ensures after.loaded == st.loaded
    ensures forall codec :: LastEncoder(codec, after.file) == LastEncoder(codec, st.file)
    ensures forall k | !IsEncoderKey(k) :: (k in after.file <==> k in settings)
    ensures forall k | !IsEncoderKey(k) && k in settings :: after.file[k] == settings[k]
  {
    var kept := map k | k in st.file && IsEncoderKey(k) :: st.file[k];
    var file := (map k | k in settings && !IsEncoderKey(k) :: settings[k]) + kept;
    forall codec
      ensures LastEncoder(codec, file) == LastEncoder(codec, st.file)
    {
      if codec == H264 { assert LastEncoderKey(codec) == LastEncoderKey(H264); }
    }
    st.(file := file)
  }

  /** The default read from the file itself. */
  function NextDefaultFromFile(st: Stores, codec: Codec, located: bool, listing: Option<string>,
                               brand: Option<string>): (r: Option<string>)
    ensures r == DefaultGpuEncoder(codec, located, listing, st.file, brand)
    ensures r.Some? ==> located && r.value in Detected(codec, listing)
  {
    DefaultGpuEncoder(codec, located, listing, st.file, brand)
  }

  /** With both corrections, an encoder that succeeded is the next default
      while it is detected, whatever settings are saved meanwhile. */
  lemma SavedEncoderIsNextDefault(st: Stores, r: Report, settings: map<string, string>, codec: Codec,
                                  encoder: string, listing: Option<string>, brand: Option<string>)
    requires r.config == SaveLastGpuEncoder(st.file, codec, encoder)
    requires encoder != "" && encoder in Detected(codec, listing)
    ensures NextDefaultFromFile(SaveConfigKeeping(AfterTask(st, r), settings), codec, true, listing, brand)
         == Some(encoder)
  {
    var after := SaveConfigKeeping(AfterTask(st, r), settings);
    assert LastEncoder(codec, after.file) == encoder;
    RememberedEncoderWins(codec, listing, after.file, brand);
  }

  /** In the scenario above, the corrected program starts the next task
      with Intel's encoder. */
  lemma FallbackEncoderIsNextDefault(st: Stores, listing: Option<string>, name: string,
                                     attempt: Choice -> Attempt, settings: map<string, string>)
    requires Detected(Hevc, listing) == ["h265_nvenc", "hevc_qsv"]
    requires attempt(Gpu("h265_nvenc")).exit == Code(1) && attempt(Gpu("hevc_qsv")).exit == Code(0)
    ensures var r := Fallback(Candidates(Hevc, "h265_nvenc", true, listing), "h265_nvenc", name, Hevc,
                              attempt, st.file);
      NextDefaultFromFile(SaveConfigKeeping(AfterTask(st, r), settings), Hevc, true, listing, Some("NVIDIA"))
        == Some("hevc_qsv")
  {
    CandidatesNvencQsv(listing);
    SecondSucceeds("h265_nvenc", "hevc_qsv", name, Hevc, attempt, st.file);
    var r := Fallback([Gpu("h265_nvenc"), Gpu("hevc_qsv")], "h265_nvenc", name, Hevc, attempt, st.file);
    SavedEncoderIsNextDefault(st, r, settings, Hevc, "hevc_qsv", listing, Some("NVIDIA"));
  }
}
