/**
  Output naming and the skip decision.

  The GUI's `process_file` (sonyToPhoto.py) derives the output name from
  the naming options the user picked; `process_files_sequential` numbers
  the custom name when a batch holds more than one file. The command-line
  `process_file` (transcode_core.py) always uses `stem + "_hlg_phone.mp4"`.
  Paths are strings whose components are separated by '/'.
 */
module Naming {
  import opened Common

  // ---------------------------------------------------------------------
  // `PurePath.name`, `.suffix` and `.stem`

  /** `s.rfind(c)`: the last position of `c` in `s`, or -1. */
  function Rfind(s: string, c: char): (i: int)
    ensures -1 <= i < |s|
    ensures i >= 0 ==> s[i] == c
    ensures forall k :: i < k < |s| ==> s[k] != c
  {
    if s == [] then -1
    else if s[|s| - 1] == c then |s| - 1
    else Rfind(s[..|s| - 1], c)
  }

  /** The last component of a path. */
  function Name(path: string): (r: string)
    ensures EndsWith(path, r)
    ensures forall k :: 0 <= k < |r| ==> r[k] != '/'
  {
    var i := Rfind(path, '/');
    assert path[|path| - |path[i + 1..]|..] == path[i + 1..];
    path[i + 1..]
  }

  /** `PurePath.suffix`: from the last dot, provided that dot is neither the
      first nor the last character of the name. */
  function Suffix(name: string): string {
    var i := Rfind(name, '.');
    if 0 < i < |name| - 1 then name[i..] else ""
  }

  /** `PurePath.stem`: the name without its suffix. */
  function Stem(name: string): string {
    var i := Rfind(name, '.');
    if 0 < i < |name| - 1 then name[..i] else name
  }

  /** The stem and the suffix split the name; a non-empty suffix is a dot
      followed by at least one character that is not a dot, and the stem
      then is non-empty. */
  lemma StemSuffixSplit(name: string)
    ensures Stem(name) + Suffix(name) == name
    ensures Suffix(name) != [] ==>
      && |Suffix(name)| >= 2 && Suffix(name)[0] == '.'
      && (forall k :: 1 <= k < |Suffix(name)| ==> Suffix(name)[k] != '.')
      && Stem(name) != []
    ensures Suffix(name) == [] ==> Stem(name) == name
  {
    var i := Rfind(name, '.');
    if 0 < i < |name| - 1 {
      assert name[..i] + name[i..] == name;
    }
  }

  // ---------------------------------------------------------------------
  // The base name

  /** `.endswith('.mp4')` followed by `[:-4]`: one trailing ".mp4" goes,
      compared case-sensitively. */
  function StripMp4(s: string): (r: string)
    ensures EndsWith(s, ".mp4") ==> r + ".mp4" == s
    ensures !EndsWith(s, ".mp4") ==> r == s
  {
    if EndsWith(s, ".mp4") then s[..|s| - 4] else s
  }

  /** The custom text as a base name: stripped of surrounding white space,
      then of one ".mp4". */
  function CustomBase(text: string): (r: string)
    ensures r == [] || !IsSpace(r[0])
  {
    StripMp4(Strip(text))
  }

  /** The naming choices of the GUI. */
  datatype NamingOptions = NamingOptions(
    keepOriginal: bool,
    custom: bool,
    customText: string,
    addTimestamp: bool,
    suffix: string)

  /** The defaults of `process_file`'s keyword arguments. */
  const DefaultSuffix := "_hlg_phone"
  const DefaultNaming := NamingOptions(true, false, "", false, DefaultSuffix)

  /** The base name: the custom text when it is chosen and non-empty,
      otherwise the input's stem when keep-original is chosen, otherwise
      "video_" and the time. `now` stands for the formatted current time. */
  function BaseName(stem: string, opts: NamingOptions, now: string): (r: string)
    ensures opts.custom && opts.customText != [] ==> r == CustomBase(opts.customText)
    ensures !(opts.custom && opts.customText != []) && opts.keepOriginal ==> r == stem
    ensures !(opts.custom && opts.customText != []) && !opts.keepOriginal ==> r == "video_" + now
  {
    if opts.custom && opts.customText != [] then CustomBase(opts.customText)
    else if opts.keepOriginal then stem
    else "video_" + now
  }

  /** The output file name: the base, then "_" and the time if asked for,
      then the suffix, then ".mp4". */
  function OutputName(stem: string, opts: NamingOptions, now: string): (r: string)
    ensures EndsWith(r, opts.suffix + ".mp4")
    ensures StartsWith(r, BaseName(stem, opts, now))
    ensures |r| == |BaseName(stem, opts, now)| + (if opts.addTimestamp then 1 + |now| else 0)
                   + |opts.suffix| + 4
  {
    Assemble(BaseName(stem, opts, now), opts.addTimestamp, now, opts.suffix)
  }

  /** The name built on a base: `name += "_" + now` when stamping, then
      `name += suffix` when the suffix is not empty, then ".mp4". */
  function Assemble(base: string, stamp: bool, now: string, suffix: string): (r: string)
    ensures EndsWith(r, suffix + ".mp4") && StartsWith(r, base)
    ensures |r| == |base| + (if stamp then 1 + |now| else 0) + |suffix| + 4
  {
    var stamped := if stamp then base + "_" + now else base;
    var suffixed := if suffix != [] then stamped + suffix else stamped;
    assert suffixed == stamped + suffix;
    AppendedEnds(stamped, suffix + ".mp4");
    AppendedStarts(base, stamped, suffix + ".mp4");
    suffixed + ".mp4"
  }

  lemma AppendedEnds(a: string, b: string)
    ensures EndsWith(a + b, b)
  {
    assert (a + b)[|a|..] == b;
  }

  lemma AppendedStarts(base: string, a: string, b: string)
    requires StartsWith(a, base)
    ensures StartsWith(a + b, base)
  {
    assert (a + b)[..|base|] == a[..|base|];
  }

  /** The command-line tool's name for the output of an input with this stem. */
  function CoreOutputName(stem: string): string {
    stem + "_hlg_phone.mp4"
  }

  /** Keep-original naming with no custom name, no time and the default
      suffix gives the command-line tool's name. */
  lemma DefaultNamingIsCoreNaming(stem: string, opts: NamingOptions, now: string)
    requires opts.keepOriginal && !opts.addTimestamp && opts.suffix == DefaultSuffix
    requires !opts.custom || opts.customText == []
    ensures OutputName(stem, opts, now) == CoreOutputName(stem)
  {
  }

  /** Where the output goes: `output_dir / out_name`. */
  function Join(dir: string, name: string): string {
    dir + "/" + name
  }

  lemma NameOfJoin(dir: string, name: string)
    requires forall k :: 0 <= k < |name| ==> name[k] != '/'
    ensures Name(Join(dir, name)) == name
  {
    var p := Join(dir, name);
    assert p[|dir|] == '/';
    assert forall k :: |dir| < k < |p| ==> p[k] == name[k - |dir| - 1];
  }

  // ---------------------------------------------------------------------
  // Numbering inside a batch

  /** The custom text that file `i` (counting from 0) of a batch of `count`
      files is processed with: numbered with `_` and four digits from 1 on
      when a custom name is chosen and the batch has more than one file,
      even when the custom text is empty. */
  function BatchCustomText(custom: bool, text: string, count: nat, i: nat): (r: string)
    ensures custom && count > 1 ==> r != [] && EndsWith(r, Pad4(i + 1))
    ensures !(custom && count > 1) ==> r == text
  {
    if custom && count > 1 then
      var r := CustomBase(text) + "_" + Pad4(i + 1);
      assert r[|r| - |Pad4(i + 1)|..] == Pad4(i + 1);
      r
    else text
  }

  /** The options file `i` of a batch is processed with. */
  function BatchOptions(opts: NamingOptions, count: nat, i: nat): NamingOptions {
    opts.(customText := BatchCustomText(opts.custom, opts.customText, count, i))
  }

  /** Reading a numbered text back as a base name changes nothing: it has
      no white space at its ends and does not end in ".mp4". */
  lemma NumberedTextIsItsOwnBase(text: string, n: nat)
    ensures CustomBase(CustomBase(text) + "_" + Pad4(n)) == CustomBase(text) + "_" + Pad4(n)
  {
    TrimmedNumber(CustomBase(text), Pad4(n));
  }

  lemma TrimmedNumber(b: string, digits: string)
    requires b == [] || !IsSpace(b[0])
    requires |digits| >= 2 && AllDigits(digits)
    ensures CustomBase(b + "_" + digits) == b + "_" + digits
  {
    var t := b + "_" + digits;
    assert t[|t| - 1] == digits[|digits| - 1];
    assert t[|t| - 2] == digits[|digits| - 2];
    assert t[0] == if b == [] then '_' else b[0];
    StripOfTrimmed(t);
    NotMp4(t);
  }

  /** In a numbered batch, file `i` is named after the custom text and its
      number. */
  lemma BatchBaseName(stem: string, opts: NamingOptions, count: nat, i: nat, now: string)
    requires opts.custom && count > 1
    ensures BaseName(stem, BatchOptions(opts, count, i), now) == CustomBase(opts.customText) + "_" + Pad4(i + 1)
  {
    NumberedTextIsItsOwnBase(opts.customText, i + 1);
  }

  /** Within one numbered batch, and for one value of the time, no two files
      get the same output name, whatever their stems. */
  lemma BatchNamesDistinct(stems: seq<string>, opts: NamingOptions, now: string, i: nat, j: nat)
    requires opts.custom && |stems| > 1
    requires i < |stems| && j < |stems| && i != j
    ensures OutputName(stems[i], BatchOptions(opts, |stems|, i), now)
         != OutputName(stems[j], BatchOptions(opts, |stems|, j), now)
  {
    NamesDistinct(stems[i], stems[j], opts, |stems|, i, j, now);
  }

  /** `BatchNamesDistinct` for two stems of a batch of `count` files. */
  lemma NamesDistinct(a: string, b: string, opts: NamingOptions, count: nat, i: nat, j: nat, now: string)
    requires opts.custom && count > 1 && i != j
    ensures OutputName(a, BatchOptions(opts, count, i), now) != OutputName(b, BatchOptions(opts, count, j), now)
  {
    BatchNumber(a, opts, count, i, now);
    BatchNumber(b, opts, count, j, now);
  }

  /** The output name of the file numbered `m` in a numbered batch. */
  function Numbered(opts: NamingOptions, now: string, m: nat): string {
    CustomBase(opts.customText) + "_" + Pad4(m) + NameTail(opts, now)
  }

  /** The number a name of a numbered batch carries: the digits between
      its first `head` characters (the custom base and "_") and its last
      `tail` characters; -1 when the name does not hold digits there. */
  function NumberOf(name: string, head: nat, tail: nat): int {
    if head + tail <= |name| then ReadNumber(name[head..|name| - tail]) else -1
  }

  /** The value of a string of digits; -1 for anything else. */
  function ReadNumber(field: string): int {
    if AllDigits(field) then ParseDecimal(field) else -1
  }

  /** The number is read back from a numbered name. */
  lemma NumberOfNumbered(opts: NamingOptions, now: string, m: nat)
    ensures NumberOf(Numbered(opts, now, m), |CustomBase(opts.customText)| + 1, |NameTail(opts, now)|) == m
  {
    var b, d, tail := CustomBase(opts.customText) + "_", Pad4(m), NameTail(opts, now);
    ParsePad4(m);
    NumberOfParts(b, d, tail);
  }

  /** The digits read between a head and a tail are the middle part. */
  lemma NumberOfParts(p: string, x: string, q: string)
    ensures NumberOf(p + x + q, |p|, |q|) == ReadNumber(x)
  {
    assert (p + x + q)[|p|..|p + x + q| - |q|] == x;
  }

  /** File `i` of a numbered batch carries the number `i + 1`. */
  lemma BatchNumber(stem: string, opts: NamingOptions, count: nat, i: nat, now: string)
    requires opts.custom && count > 1
    ensures NumberOf(OutputName(stem, BatchOptions(opts, count, i), now), |CustomBase(opts.customText)| + 1,
                     |NameTail(opts, now)|) == i + 1
  {
    BatchOutputName(stem, opts, count, i, now);
    NumberOfNumbered(opts, now, i + 1);
  }

  /** In a numbered batch, file `i`'s output name is the custom base, "_",
      its number and the common tail. */
  lemma BatchOutputName(stem: string, opts: NamingOptions, count: nat, i: nat, now: string)
    requires opts.custom && count > 1
    ensures OutputName(stem, BatchOptions(opts, count, i), now) == Numbered(opts, now, i + 1)
  {
    BatchBaseName(stem, opts, count, i, now);
    OutputNameTail(stem, BatchOptions(opts, count, i), now);
  }

  /** What follows the base name in an output name. */
  function NameTail(opts: NamingOptions, now: string): string {
    (if opts.addTimestamp then "_" + now else "") + opts.suffix + ".mp4"
  }

  lemma OutputNameTail(stem: string, opts: NamingOptions, now: string)
    ensures OutputName(stem, opts, now) == BaseName(stem, opts, now) + NameTail(opts, now)
  {
    AssembleTail(BaseName(stem, opts, now), opts.addTimestamp, now, opts.suffix);
  }

  lemma AssembleTail(base: string, stamp: bool, now: string, suffix: string)
    ensures Assemble(base, stamp, now, suffix) == base + ((if stamp then "_" + now else "") + suffix + ".mp4")
  {
  }

  // ---------------------------------------------------------------------
  // The skip decision

  /** An existing output is skipped only when overwriting is off and
      skipping is on; when overwriting is off and skipping is off too, the
      command still runs (and ffmpeg's "-n" refuses to overwrite). */
  predicate ShouldSkip(outputExists: bool, overwrite: bool, skipExisting: bool) {
    outputExists && !overwrite && skipExisting
  }
}
