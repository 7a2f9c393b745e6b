/** The caching half of the CUDA compiler driver (CudaCompiler.cpp): the
    memoised hash over a compiler's inputs, the process-wide module and
    cubin caches keyed by it, and the preprocessing pass that filters the
    preprocessed source, assembles the final nvcc options and names the
    cached cubin file. Running nvcc, reading and writing files, probing the
    GPU and discovering the toolkit are outside the model; what they
    produce is given to the methods as parameters. */
module CudaCompiler {
  import opened Format
  import opened CudaOptions

  const U32Modulus: int := 0x1_0000_0000

  type U8 = x: int | 0 <= x < 256
  type U32 = x: int | 0 <= x < 0x1_0000_0000
  type U64 = x: int | 0 <= x < 0x1_0000_0000_0000_0000

  /** `U32` addition, wrapping around modulo 2^32. */
  function Add32(a: U32, b: U32): (r: U32)
    ensures r == a + b || r == a + b - U32Modulus
  {
    (a + b) % U32Modulus
  }

  /** `(U32)(x >> 32)` and `(U32)x`. */
  function High32(x: U64): U32 { x / U32Modulus }
  function Low32(x: U64): U32 { x % U32Modulus }

  /** `((U64)hi << 32) | lo`. */
  function Pack64(hi: U32, lo: U32): (r: U64)
    ensures High32(r) == hi && Low32(r) == lo
  {
    hi * U32Modulus + lo
  }

  /** Two packed values are equal only when both halves are. */
  lemma Pack64Injective(h1: U32, l1: U32, h2: U32, l2: U32)
    requires Pack64(h1, l1) == Pack64(h2, l2)
    ensures h1 == h2 && l1 == l2
  {
    assert High32(Pack64(h1, l1)) == h1 && High32(Pack64(h2, l2)) == h2;
  }

  /** The three words `FW_JENKINS_MIX(a, b, c)` scrambles in place. */
  datatype Triple = Triple(a: U32, b: U32, c: U32)

  /** The hash primitives of the framework, defined in a header that is not
      part of this model: the seed `FW_HASH_MAGIC`, `hash<String>` and
      `FW_JENKINS_MIX`. */
  datatype Hashing = Hashing(magic: U32, hashString: string -> U32, mix: Triple -> Triple)

  /** `hash<String>(s)`. */
  function HashOf(h: Hashing, s: string): U32 {
    h.hashString(s)
  }

  /** `FW_JENKINS_MIX(a, b, c)`. */
  function Mix(h: Hashing, t: Triple): Triple {
    h.mix(t)
  }

  function Seed(h: Hashing): Triple {
    Triple(h.magic, h.magic, h.magic)
  }

  /** One `#define` folded into the running words: `a += hash(key)`,
      `b += hash(value)`, then a mix. */
  function DefineStep(h: Hashing, t: Triple, key: string, value: string): Triple {
    Mix(h, Triple(Add32(t.a, HashOf(h, key)), Add32(t.b, HashOf(h, value)), t.c))
  }

  function DefinesTriple(h: Hashing, defines: seq<(string, string)>): Triple {
    if defines == [] then Seed(h)
    else
      var d := defines[|defines| - 1];
      DefineStep(h, DefinesTriple(h, defines[..|defines| - 1]), d.0, d.1)
  }

  /** The hash over the defines, taken in the order the table's slots hold them. */
  function DefineHash(h: Hashing, defines: seq<(string, string)>): U64 {
    Pack64(DefinesTriple(h, defines).b, DefinesTriple(h, defines).c)
  }

  /** The hash `getMemHash` forms from the four partial hashes. */
  function MemHashOf(h: Hashing, sourceHash: U32, optionHash: U32, preambleHash: U32, defineHash: U64): U64 {
    var t1 := Mix(h, Triple(Add32(h.magic, sourceHash), Add32(h.magic, optionHash), Add32(h.magic, preambleHash)));
    var t2 := Mix(h, Triple(Add32(t1.a, High32(defineHash)), Add32(t1.b, Low32(defineHash)), t1.c));
    Pack64(t2.b, t2.c)
  }

  datatype Platform = Windows | Posix

  /** `SEPARATOR`: the path separator. */
  function Separator(p: Platform): string {
    if p == Windows then "\\" else "/"
  }

  /** `LIST_SEPARATOR`: what separates the entries of `PATH` and `INCLUDE`. */
  function ListSeparator(p: Platform): char {
    if p == Windows then ';' else ':'
  }

  /** What `CudaModule` reports about the GPU and its driver. */
  datatype Device = Device(available: bool, computeCapability: int, driverVersion: int)

  /** What the toolkit discovery of `staticInit` finds: no `nvcc` that
      answers `nvcc: NVIDIA`; such an `nvcc` (the hash of its version
      response) but no `cuda.h`; or both, with the nvcc command line formed
      from the paths found. */
  datatype Toolkit =
    | NoBinPath
    | NoIncludePath(versionHash: U32)
    | Found(versionHash: U32, command: string)

  /** A loaded module; the model keeps only the cubin file it came from. */
  class CudaModule {
    const cubinFile: string

    constructor(cubinFile: string)
      ensures this.cubinFile == cubinFile
    {
      this.cubinFile := cubinFile;
    }
  }

  /** The static members of `CudaCompiler`, shared by all compilers. */
  class CompilerStatics {
    var staticCudaBinPath: string
    var staticOptions: string
    var staticPreamble: string
    var staticBinaryFormat: string
    var inited: bool
    var cubinCache: map<U64, array<U8>>
    var moduleCache: map<U64, CudaModule>
    var nvccVersionHash: U32
    var nvccCommand: string
    /** How many times the toolchain was asked for a cubin file. */
    ghost var compilerRuns: nat

    /** The static initialisers. */
    constructor()
      ensures staticCudaBinPath == "" && staticOptions == "" && staticPreamble == ""
      ensures staticBinaryFormat == "" && nvccCommand == ""
      ensures !inited && cubinCache == map[] && moduleCache == map[]
      ensures nvccVersionHash == 0 && compilerRuns == 0
    {
      staticCudaBinPath := "";
      staticOptions := "";
      staticPreamble := "";
      staticBinaryFormat := "";
      inited := false;
      cubinCache := map[];
      moduleCache := map[];
      nvccVersionHash := 0;
      nvccCommand := "";
      compilerRuns := 0;
    }

    /** Whether `staticInit` runs its discovery now and stops in `fail`. */
    predicate InitFails(hasError: bool, tk: Toolkit)
      reads this
    {
      !inited && !hasError && !tk.Found?
    }

    /** The settings `staticInit` changes, from the state before the call:
        the flag is set unless an error is pending; on a first call the
        version hash is that of the `nvcc` found and the command line is
        formed once the include path is found too. */
    twostate predicate InitedFrom(hasError: bool, tk: Toolkit)
      reads this
    {
      var runs := !old(inited) && !hasError;
      inited == (old(inited) || !hasError) &&
      nvccVersionHash == (if runs && !tk.NoBinPath? then tk.versionHash else old(nvccVersionHash)) &&
      nvccCommand == (if runs && tk.Found? then tk.command else old(nvccCommand)) &&
      staticOptions == old(staticOptions) && staticBinaryFormat == old(staticBinaryFormat) &&
      staticCudaBinPath == old(staticCudaBinPath) && staticPreamble == old(staticPreamble)
    }

    /** `staticInit`: nothing happens when already initialised or when an
        error is pending. Otherwise the flag is set and the outcome `tk` of
        the toolkit discovery is recorded; `failed` is whether the discovery
        ends in `fail`. */
    method StaticInit(hasError: bool, tk: Toolkit) returns (failed: bool)
      modifies this`inited, this`nvccVersionHash, this`nvccCommand
      ensures InitedFrom(hasError, tk)
      ensures failed == old(InitFails(hasError, tk))
      ensures old(inited) || hasError ==> unchanged(this)
      ensures cubinCache == old(cubinCache) && moduleCache == old(moduleCache)
      ensures compilerRuns == old(compilerRuns)
    {
      if inited || hasError {
        return false;
      }
      inited := true;
      match tk {
        case NoBinPath =>
          return true;
        case NoIncludePath(h) =>
          nvccVersionHash := h;
          return true;
        case Found(h, command) =>
          nvccVersionHash := h;
          nvccCommand := command;
          return false;
      }
    }

    /** The cache step of `compile` under the memo hash `key`: a cached
        module is returned; otherwise the toolchain runs once, and the cubin
        file it built, if any, becomes a new cached module. */
    method CacheModule(key: U64, built: string) returns (mod: CudaModule?)
      modifies this`moduleCache, this`compilerRuns
      ensures key in old(moduleCache) ==>
                mod == old(moduleCache)[key] && moduleCache == old(moduleCache) &&
                compilerRuns == old(compilerRuns)
      ensures key !in old(moduleCache) ==>
                compilerRuns == old(compilerRuns) + 1 &&
                (built == "" ==> mod == null && moduleCache == old(moduleCache)) &&
                (built != "" ==> mod != null && fresh(mod) && mod.cubinFile == built &&
                                 moduleCache == old(moduleCache)[key := mod])
    {
      if key in moduleCache {
        return moduleCache[key];
      }
      compilerRuns := compilerRuns + 1;
      if |built| == 0 {
        return null;
      }
      mod := new CudaModule(built);
      moduleCache := moduleCache[key := mod];
    }

    /** The cache step of `compileCubin`: the same, where a new entry holds
        the bytes of the built file followed by a terminating 0. */
    method CacheCubin(key: U64, built: string, bytes: seq<U8>) returns (cubin: array?<U8>)
      requires |bytes| < 0x7FFF_FFFF
      modifies this`cubinCache, this`compilerRuns
      ensures key in old(cubinCache) ==>
                cubin == old(cubinCache)[key] && cubinCache == old(cubinCache) &&
                compilerRuns == old(compilerRuns)
      ensures key !in old(cubinCache) ==>
                compilerRuns == old(compilerRuns) + 1 &&
                (built == "" ==> cubin == null && cubinCache == old(cubinCache)) &&
                (built != "" ==> cubin != null && fresh(cubin) && cubin[..] == bytes + [0] &&
                                 cubinCache == old(cubinCache)[key := cubin])
    {
      if key in cubinCache {
        return cubinCache[key];
      }
      compilerRuns := compilerRuns + 1;
      if |built| == 0 {
        return null;
      }
      var size := |bytes|;
      cubin := new U8[size + 1](i requires 0 <= i <= size => if i < size then bytes[i] else 0);
      assert cubin[..] == bytes + [0];
      cubinCache := cubinCache[key := cubin];
    }

    /** `flushMemCache`: every cached cubin and module is released and both
        caches are emptied. */
    method FlushMemCache()
      modifies this
      ensures cubinCache == map[] && moduleCache == map[]
      ensures inited == old(inited) && compilerRuns == old(compilerRuns)
      ensures staticOptions == old(staticOptions) && staticBinaryFormat == old(staticBinaryFormat)
      ensures staticCudaBinPath == old(staticCudaBinPath) && staticPreamble == old(staticPreamble)
      ensures nvccVersionHash == old(nvccVersionHash) && nvccCommand == old(nvccCommand)
    {
      cubinCache := map[];
      moduleCache := map[];
    }

    /** `staticDeinit`: the four static settings are always cleared; the
        caches and the nvcc command only when the compiler was initialised. */
    method StaticDeinit()
      modifies this
      ensures staticCudaBinPath == "" && staticOptions == "" && staticPreamble == "" && staticBinaryFormat == ""
      ensures !inited
      ensures old(inited) ==> cubinCache == map[] && moduleCache == map[] && nvccCommand == ""
      ensures !old(inited) ==> cubinCache == old(cubinCache) && moduleCache == old(moduleCache) && nvccCommand == old(nvccCommand)
      ensures nvccVersionHash == old(nvccVersionHash) && compilerRuns == old(compilerRuns)
    {
      staticCudaBinPath := "";
      staticOptions := "";
      staticPreamble := "";
      staticBinaryFormat := "";
      if !inited {
        return;
      }
      inited := false;
      FlushMemCache();
      cubinCache := map[];
      moduleCache := map[];
      nvccCommand := "";
    }
  }

  /** What a line of the preprocessed source is to the filter. */
  datatype LineKind = Ignored | OptionDirective(options: string) | Comment | Code(text: string)

  const OptionPrefix: string := "// EMIT_NVCC_OPTIONS "

  predicate IsBlank(c: char) {
    c == ' ' || c == '\t'
  }

  predicate StartsWith(s: string, prefix: string) {
    |prefix| <= |s| && s[..|prefix|] == prefix
  }

  /** How many spaces and tabs the line begins with. */
  function BlankCount(line: string): (n: nat)
    ensures n <= |line|
  {
    if line != [] && IsBlank(line[0]) then 1 + BlankCount(line[1..]) else 0
  }

  /** The count covers exactly the leading run of blanks. */
  lemma {:induction false} BlankCountIsLeadingRun(line: string)
    ensures forall j :: 0 <= j < BlankCount(line) ==> IsBlank(line[j])
    ensures BlankCount(line) < |line| ==> !IsBlank(line[BlankCount(line)])
  {
    if line != [] && IsBlank(line[0]) {
      BlankCountIsLeadingRun(line[1..]);
      assert forall j :: 1 <= j < BlankCount(line) ==> line[j] == line[1..][j - 1];
    }
  }

  /** The line with its leading spaces and tabs removed. */
  function TrimLeft(line: string): string {
    line[BlankCount(line)..]
  }

  /** How the filter of `runPreprocessor` treats a line. */
  function Classify(line: string): LineKind {
    var t := TrimLeft(line);
    if t == [] || t[0] == '#' then Ignored
    else if StartsWith(t, OptionPrefix) then OptionDirective(t[|OptionPrefix|..])
    else if StartsWith(t, "//") then Comment
    else Code(t)
  }

  /** What one line adds to the options: a directive's options and a space. */
  function LineOptions(line: string): string {
    if Classify(line).OptionDirective? then Classify(line).options + " " else []
  }

  /** What one line adds to the hash: the trimmed text of a code line. */
  function LineHashed(line: string): seq<string> {
    if Classify(line).Code? then [Classify(line).text] else []
  }

  /** The options `opts` followed by those the directive lines contribute,
      each followed by a space, in line order. */
  function AppendOptions(opts: string, lines: seq<CString>): string {
    if lines == [] then opts else AppendOptions(opts, lines[..|lines| - 1]) + LineOptions(lines[|lines| - 1])
  }

  /** The trimmed lines that go into the hash, in line order. */
  function HashedLines(lines: seq<CString>): seq<string> {
    if lines == [] then [] else HashedLines(lines[..|lines| - 1]) + LineHashed(lines[|lines| - 1])
  }

  /** `hashA += hash(line)` and a mix, once per hashed line. */
  function LineStep(h: Hashing, t: Triple, text: string): Triple {
    Mix(h, Triple(Add32(t.a, HashOf(h, text)), t.b, t.c))
  }

  function LinesTriple(h: Hashing, t: Triple, texts: seq<string>): Triple {
    if texts == [] then t
    else LineStep(h, LinesTriple(h, t, texts[..|texts| - 1]), texts[|texts| - 1])
  }

  /** The appended elements are folded in after the others. */
  lemma LinesTripleSnoc(h: Hashing, t: Triple, texts: seq<string>, more: seq<string>)
    requires |more| <= 1
    ensures LinesTriple(h, t, texts + more)
            == if more == [] then LinesTriple(h, t, texts) else LineStep(h, LinesTriple(h, t, texts), more[0])
  {
    if more == [] {
      assert texts + more == texts;
    } else {
      assert (texts + more)[..|texts + more| - 1] == texts;
    }
  }

  lemma FilterPrefix(lines: seq<CString>, i: nat)
    requires i < |lines|
    ensures forall opts :: AppendOptions(opts, lines[..i + 1]) == AppendOptions(opts, lines[..i]) + LineOptions(lines[i])
    ensures HashedLines(lines[..i + 1]) == HashedLines(lines[..i]) + LineHashed(lines[i])
  {
    assert lines[..i + 1][..i] == lines[..i];
  }

  /** Folding in at most one more text continues from the triple so far. */
  lemma LinesTripleAppend(h: Hashing, t: Triple, texts: seq<string>, more: seq<string>)
    requires |more| <= 1
    ensures LinesTriple(h, t, texts + more) == LinesTriple(h, LinesTriple(h, t, texts), more)
  {
    if more == [] {
      assert texts + more == texts;
    } else {
      assert (texts + more)[..|texts + more| - 1] == texts;
      assert |more[..0]| == 0;
    }
  }

  /** The body of the loop of `runPreprocessor` for one line read from the
      preprocessed file: trim, then ignore it, record its options or hash it. */
  method FilterLine(h: Hashing, raw: string, opts: string, t: Triple)
    returns (optsOut: string, tOut: Triple)
    ensures optsOut == opts + LineOptions(raw)
    ensures tOut == LinesTriple(h, t, LineHashed(raw))
  {
    var k := 0;
    BlankCountIsLeadingRun(raw);
    while k < |raw| && IsBlank(raw[k])
      invariant 0 <= k <= BlankCount(raw)
    {
      k := k + 1;
    }
    var line := raw[k..];
    assert line == TrimLeft(raw);
    optsOut, tOut := opts, t;
    if line == [] || line[0] == '#' {
      assert opts + [] == opts;
      return;
    }
    if StartsWith(line, OptionPrefix) {
      optsOut := opts + (line[|OptionPrefix|..] + " ");
    } else if !StartsWith(line, "//") {
      ghost var one: seq<string> := [line];
      assert one[..0] == [];
      tOut := LineStep(h, t, line);
    } else {
      assert opts + [] == opts;
    }
  }

  /** The loop of `runPreprocessor` over the lines of the preprocessed file. */
  method FilterLines(h: Hashing, lines: seq<CString>, opts: string, t: Triple)
    returns (optsOut: string, tOut: Triple)
    ensures optsOut == AppendOptions(opts, lines)
    ensures tOut == LinesTriple(h, t, HashedLines(lines))
  {
    optsOut := opts;
    tOut := t;
    var lineIdx := 0;
    while lineIdx < |lines|
      invariant 0 <= lineIdx <= |lines|
      invariant optsOut == AppendOptions(opts, lines[..lineIdx])
      invariant tOut == LinesTriple(h, t, HashedLines(lines[..lineIdx]))
    {
      ghost var hashed := HashedLines(lines[..lineIdx]);
      FilterPrefix(lines, lineIdx);
      LinesTripleAppend(h, t, hashed, LineHashed(lines[lineIdx]));
      optsOut, tOut := FilterLine(h, lines[lineIdx], optsOut, tOut);
      lineIdx := lineIdx + 1;
    }
    assert lines[..lineIdx] == lines;
  }

  /** Directive lines of two stretches of the file contribute the options
      of the first, then those of the second. */
  lemma {:induction false} AppendOptionsConcat(opts: string, a: seq<CString>, b: seq<CString>)
    ensures AppendOptions(opts, a + b) == AppendOptions(AppendOptions(opts, a), b)
    decreases |b|
  {
    if b == [] {
      assert a + b == a;
    } else {
      var init := b[..|b| - 1];
      assert (a + b)[..|a + b| - 1] == a + init;
      assert (a + b)[|a + b| - 1] == b[|b| - 1];
      AppendOptionsConcat(opts, a, init);
    }
  }

  /** The options already there are kept, as a prefix, whatever lines follow. */
  lemma {:induction false} AppendOptionsKeepsPrefix(opts: string, lines: seq<CString>)
    ensures AppendOptions(opts, lines) == opts + AppendOptions("", lines)
    decreases |lines|
  {
    if lines != [] {
      var init := lines[..|lines| - 1];
      var rest := AppendOptions("", init);
      var last := LineOptions(lines[|lines| - 1]);
      AppendOptionsKeepsPrefix(opts, init);
      assert AppendOptions(opts, lines) == AppendOptions(opts, init) + last;
      assert AppendOptions("", lines) == rest + last;
      Associate(opts, rest, last);
    } else {
      assert opts + "" == opts;
    }
  }

  /** The hashed lines of two stretches are those of the first, then those
      of the second. */
  lemma {:induction false} HashedLinesConcat(a: seq<CString>, b: seq<CString>)
    ensures HashedLines(a + b) == HashedLines(a) + HashedLines(b)
    decreases |b|
  {
    if b == [] {
      assert a + b == a;
    } else {
      var init := b[..|b| - 1];
      assert (a + b)[..|a + b| - 1] == a + init;
      assert (a + b)[|a + b| - 1] == b[|b| - 1];
      HashedLinesConcat(a, init);
    }
  }

  /** Indentation by spaces and tabs does not change how a line is treated. */
  lemma ClassifyIgnoresIndent(pad: string, line: string)
    requires forall j :: 0 <= j < |pad| ==> IsBlank(pad[j])
    ensures Classify(pad + line) == Classify(line)
  {
    BlankCountOfIndent(pad, line);
    var k := BlankCount(line);
    assert (pad + line)[|pad| + k..] == line[k..];
  }

  /** Blanks put in front of a line lengthen its leading run by as many. */
  lemma {:induction false} BlankCountOfIndent(pad: string, line: string)
    requires forall j :: 0 <= j < |pad| ==> IsBlank(pad[j])
    ensures BlankCount(pad + line) == |pad| + BlankCount(line)
    decreases |pad|
  {
    if pad != [] {
      assert (pad + line)[0] == pad[0];
      assert (pad + line)[1..] == pad[1..] + line;
      BlankCountOfIndent(pad[1..], line);
    } else {
      assert pad + line == line;
    }
  }

  lemma SingleLine(opts: string, line: CString)
    ensures AppendOptions(opts, [line]) == opts + LineOptions(line)
    ensures HashedLines([line]) == LineHashed(line)
  {
    assert [line][..0] == [];
  }

  /** A comment, a `#` line or a blank line adds no options, wherever it
      stands. */
  lemma SkippedLineAddsNoOptions(opts: string, a: seq<CString>, line: CString, b: seq<CString>)
    requires Classify(line) == Comment || Classify(line) == Ignored
    ensures AppendOptions(opts, a + [line] + b) == AppendOptions(opts, a + b)
  {
    AppendOptionsConcat(opts, a + [line], b);
    AppendOptionsConcat(opts, a, [line]);
    AppendOptionsConcat(opts, a, b);
    SingleLine(AppendOptions(opts, a), line);
    assert LineOptions(line) == [];
    assert AppendOptions(opts, a + [line]) == AppendOptions(opts, a);
  }

  /** Nor does it change what is hashed. */
  lemma SkippedLineNotHashed(a: seq<CString>, line: CString, b: seq<CString>)
    requires Classify(line) == Comment || Classify(line) == Ignored
    ensures HashedLines(a + [line] + b) == HashedLines(a + b)
  {
    HashedLinesConcat(a + [line], b);
    HashedLinesConcat(a, [line]);
    HashedLinesConcat(a, b);
    SingleLine("", line);
    assert LineHashed(line) == [];
    assert HashedLines(a + [line]) == HashedLines(a);
  }

  /** An indented directive contributes exactly its suffix and a space. */
  lemma DirectiveContributes(opts: string, pad: string, options: string)
    requires forall j :: 0 <= j < |pad| ==> IsBlank(pad[j])
    requires '\0' !in pad && '\0' !in options
    ensures AppendOptions(opts, [pad + OptionPrefix + options]) == opts + (options + " ")
    ensures HashedLines([pad + OptionPrefix + options]) == []
  {
    var line: CString := pad + OptionPrefix + options;
    var t := OptionPrefix + options;
    assert line == pad + t;
    ClassifyIgnoresIndent(pad, t);
    assert t[0] == '/';
    assert BlankCount(t) == 0;
    assert t[0..] == t;
    assert t[..|OptionPrefix|] == OptionPrefix;
    assert t[|OptionPrefix|..] == options;
    assert Classify(t) == OptionDirective(options);
    SingleLine(opts, line);
  }

  /** `removeOption` as a function. */
  function Removed(opts: string, tag: string, hasParam: bool): string {
    Scan(opts, 0, tag, hasParam)
  }

  /** The options before preprocessing: the static options and a space when
      there are any, then the compiler's own. */
  function BaseOptions(staticOptions: string, options: string): string {
    (if staticOptions != "" then staticOptions + " " else "") + options
  }

  /** The binary format, `-cubin` unless one is configured, and a space. */
  function FormatOption(binaryFormat: string): string {
    (if binaryFormat != "" then binaryFormat else "-cubin") + " "
  }

  /** The architecture to compile for: the override, else the device's
      compute capability when a device is available, else none (0). */
  function SmArch(overridden: int, dev: Device): int {
    if overridden != 0 then overridden
    else if dev.available then dev.computeCapability
    else 0
  }

  /** With an architecture, every `-arch` and `--gpu-architecture` option
      (with its parameter) is replaced by `-arch sm_<arch>` at the end. */
  function ArchOverride(opts: string, smArch: int): string {
    if smArch != 0 then
      Removed(Removed(opts, "-arch", true), "--gpu-architecture", true) + "-arch sm_" + FormatDecimal(smArch) + " "
    else opts
  }

  /** From driver version 3.2 on, the pointer-width options are replaced by
      the one of the build: `-m64` for a 64-bit build, `-m32` otherwise. */
  function MachineOverride(opts: string, driverVersion: int, is64: bool): string {
    if driverVersion >= 32 then
      Removed(Removed(Removed(opts, "-m32", false), "-m64", false), "--machine", true)
        + (if is64 then "-m64 " else "-m32 ")
    else opts
  }

  /** The 16 lower-case hex digits in a cubin file name: `%08x%08x` of two words. */
  function CubinDigits(b: U32, c: U32): (d: string)
    ensures |d| == 16 && AllHexDigits(d, false) && AllAnyHexDigits(d)
    ensures HexValue(d[..8]) == b && HexValue(d[8..]) == c
    ensures HexValue(d) == Pack64(b, c)
  {
    assert Pow16(8) == U32Modulus by {
      assert Pow16(2) == 256;
      assert Pow16(4) == 65536;
      assert Pow16(6) == 16777216;
    }
    var x := FormatHex(b, 8, false);
    var y := FormatHex(c, 8, false);
    assert (x + y)[..8] == x && (x + y)[8..] == y;
    HexValueConcat(x, y);
    x + y
  }

  lemma DigitsConcat(x: string, y: string)
    requires AllAnyHexDigits(x) && AllAnyHexDigits(y)
    ensures AllAnyHexDigits(x + y)
  {
    forall i | 0 <= i < |x + y| ensures IsAnyHexDigit((x + y)[i]) {
      if i < |x| {
        assert (x + y)[i] == x[i];
      } else {
        assert (x + y)[i] == y[i - |x|];
      }
    }
  }

  lemma ShiftDigit(vx: int, p0: int, v0: int, d: int)
    ensures (vx * p0 + v0) * 16 + d == vx * (16 * p0) + (v0 * 16 + d)
  {
  }

  /** The value of two numerals written one after the other. */
  lemma {:induction false} HexValueConcat(x: string, y: string)
    requires AllAnyHexDigits(x) && AllAnyHexDigits(y)
    ensures AllAnyHexDigits(x + y)
    ensures HexValue(x + y) == HexValue(x) * Pow16(|y|) + HexValue(y)
    decreases |y|
  {
    DigitsConcat(x, y);
    if y == [] {
      assert x + y == x;
    } else {
      var y0 := y[..|y| - 1];
      assert AllAnyHexDigits(y0) by {
        forall i | 0 <= i < |y0| ensures IsAnyHexDigit(y0[i]) { assert y0[i] == y[i]; }
      }
      assert (x + y)[..|x + y| - 1] == x + y0;
      assert (x + y)[|x + y| - 1] == y[|y| - 1];
      HexValueConcat(x, y0);
      ShiftDigit(HexValue(x), Pow16(|y0|), HexValue(y0), HexDigitValue(y[|y| - 1]));
    }
  }

  /** `sprintf("%s" SEPARATOR "%08x%08x.cubin", cachePath, hashB, hashC)`. */
  function CubinName(p: Platform, cachePath: string, b: U32, c: U32): string {
    cachePath + Separator(p) + CubinDigits(b, c) + ".cubin"
  }

  /** The name of the cached cubin file determines both hash words. */
  lemma CubinNameInjective(p: Platform, cachePath: string, b1: U32, c1: U32, b2: U32, c2: U32)
    requires CubinName(p, cachePath, b1, c1) == CubinName(p, cachePath, b2, c2)
    ensures b1 == b2 && c1 == c2
  {
    var k := |cachePath| + |Separator(p)|;
    var n1 := CubinName(p, cachePath, b1, c1);
    var n2 := CubinName(p, cachePath, b2, c2);
    assert n1[k..k + 16] == CubinDigits(b1, c1);
    assert n2[k..k + 16] == CubinDigits(b2, c2);
  }

  /** The options nvcc is finally given: the base options, the binary
      format, the directives' options, then the architecture and
      pointer-width overrides. */
  function FinalOptions(staticOptions: string, binaryFormat: string, options: string, lines: seq<CString>,
                        smArch: int, driverVersion: int, is64: bool): string {
    MachineOverride(ArchOverride(AppendOptions(BaseOptions(staticOptions, options) + FormatOption(binaryFormat), lines),
                                 smArch), driverVersion, is64)
  }

  /** The words that name the cubin: the hash of the code lines, then
      `hashA += hash(finalOpts)`, `hashB += nvccVersionHash` and a mix. */
  function CubinWords(h: Hashing, lines: seq<CString>, finalOpts: string, versionHash: U32): Triple {
    var t := LinesTriple(h, Seed(h), HashedLines(lines));
    Mix(h, Triple(Add32(t.a, HashOf(h, finalOpts)), Add32(t.b, versionHash), t.c))
  }

  /** What the preprocessing pass decides. */
  datatype Preprocessed = Preprocessed(cubinFile: string, finalOpts: string, error: Option<string>)

  datatype Option<T> = None | Some(value: T)

  const PreprocessFailed: string := "CudaCompiler: Preprocessing failed!"

  /** One compiler: its inputs, their memoised hashes and validity flags. */
  class Compiler {
    const hashing: Hashing
    const statics: CompilerStatics
    var cachePath: string
    var sourceFile: string
    var overriddenSMArch: int
    var options: string
    /** `m_defines`, in the order of the table's slots. */
    var defines: seq<(string, string)>
    var preamble: string

    var sourceFileHash: U32
    var optionHash: U32
    var defineHash: U64
    var preambleHash: U32
    var memHash: U64
    var sourceFileHashValid: bool
    var optionHashValid: bool
    var defineHashValid: bool
    var preambleHashValid: bool
    var memHashValid: bool

    /** Every partial hash marked valid is the hash of its input. */
    ghost predicate PartsConsistent()
      reads this
    {
      (sourceFileHashValid ==> sourceFileHash == HashOf(hashing, sourceFile)) &&
      (optionHashValid ==> optionHash == HashOf(hashing, options)) &&
      (defineHashValid ==> defineHash == DefineHash(hashing, defines)) &&
      (preambleHashValid ==> preambleHash == HashOf(hashing, preamble))
    }

    /** Every hash marked valid is the hash of the current inputs. */
    ghost predicate Consistent()
      reads this
    {
      PartsConsistent() &&
      (memHashValid ==>
         sourceFileHashValid && optionHashValid && defineHashValid && preambleHashValid &&
         memHash == MemHashOf(hashing, sourceFileHash, optionHash, preambleHash, defineHash))
    }

    /** The hash of the current inputs. */
    ghost function InputHash(): U64
      reads this
    {
      MemHashOf(hashing, HashOf(hashing, sourceFile), HashOf(hashing, options),
                HashOf(hashing, preamble), DefineHash(hashing, defines))
    }

    constructor(hashing: Hashing, statics: CompilerStatics)
      ensures this.hashing == hashing && this.statics == statics
      ensures cachePath == "cudacache" && sourceFile == "unspecified.cu" && overriddenSMArch == 0
      ensures options == "" && defines == [] && preamble == ""
      ensures sourceFileHash == 0 && optionHash == 0 && defineHash == 0 && preambleHash == 0 && memHash == 0
      ensures !sourceFileHashValid && !optionHashValid && !defineHashValid && !preambleHashValid && !memHashValid
      ensures Consistent()
    {
      this.hashing := hashing;
      this.statics := statics;
      cachePath := "cudacache";
      sourceFile := "unspecified.cu";
      overriddenSMArch := 0;
      options := "";
      defines := [];
      preamble := "";
      sourceFileHash := 0;
      optionHash := 0;
      defineHash := 0;
      preambleHash := 0;
      memHash := 0;
      sourceFileHashValid := false;
      optionHashValid := false;
      defineHashValid := false;
      preambleHashValid := false;
      memHashValid := false;
    }

    /** The loop of `getMemHash` over the defines. */
    method HashDefines() returns (hash: U64)
      ensures hash == DefineHash(hashing, defines)
    {
      var t := Seed(hashing);
      var i := 0;
      while i < |defines|
        invariant 0 <= i <= |defines|
        invariant t == DefinesTriple(hashing, defines[..i])
      {
        var a := Add32(t.a, HashOf(hashing, defines[i].0));
        var b := Add32(t.b, HashOf(hashing, defines[i].1));
        assert defines[..i + 1][..i] == defines[..i];
        t := Mix(hashing, Triple(a, b, t.c));
        i := i + 1;
      }
      assert defines[..i] == defines;
      hash := Pack64(t.b, t.c);
    }

    /** The middle of `getMemHash`: each partial hash not yet valid is
        computed from its input and marked valid. */
    method RefreshPartialHashes()
      modifies this`sourceFileHash, this`sourceFileHashValid, this`optionHash, this`optionHashValid
      modifies this`defineHash, this`defineHashValid, this`preambleHash, this`preambleHashValid
      ensures sourceFileHashValid && optionHashValid && defineHashValid && preambleHashValid
      ensures sourceFileHash == if old(sourceFileHashValid) then old(sourceFileHash) else HashOf(hashing, sourceFile)
      ensures optionHash == if old(optionHashValid) then old(optionHash) else HashOf(hashing, options)
      ensures defineHash == if old(defineHashValid) then old(defineHash) else DefineHash(hashing, defines)
      ensures preambleHash == if old(preambleHashValid) then old(preambleHash) else HashOf(hashing, preamble)
    {
      RefreshSourceFileHash();
      RefreshOptionHash();
      RefreshDefineHash();
      RefreshPreambleHash();
    }

    /** One `if (!m_...HashValid)` block of `getMemHash` each. */
    method RefreshSourceFileHash()
      modifies this`sourceFileHash, this`sourceFileHashValid
      ensures sourceFileHashValid
      ensures sourceFileHash == if old(sourceFileHashValid) then old(sourceFileHash) else HashOf(hashing, sourceFile)
    {
      if !sourceFileHashValid {
        sourceFileHash := HashOf(hashing, sourceFile);
        sourceFileHashValid := true;
      }
    }

    method RefreshOptionHash()
      modifies this`optionHash, this`optionHashValid
      ensures optionHashValid
      ensures optionHash == if old(optionHashValid) then old(optionHash) else HashOf(hashing, options)
    {
      if !optionHashValid {
        optionHash := HashOf(hashing, options);
        optionHashValid := true;
      }
    }

    method RefreshDefineHash()
      modifies this`defineHash, this`defineHashValid
      ensures defineHashValid
      ensures defineHash == if old(defineHashValid) then old(defineHash) else DefineHash(hashing, defines)
    {
      if !defineHashValid {
        defineHash := HashDefines();
        defineHashValid := true;
      }
    }

    method RefreshPreambleHash()
      modifies this`preambleHash, this`preambleHashValid
      ensures preambleHashValid
      ensures preambleHash == if old(preambleHashValid) then old(preambleHash) else HashOf(hashing, preamble)
    {
      if !preambleHashValid {
        preambleHash := HashOf(hashing, preamble);
        preambleHashValid := true;
      }
    }

    /** `getMemHash`: a valid memo is returned untouched; otherwise each
        partial hash not yet valid is computed, then the memo. */
    method GetMemHash() returns (h: U64)
      modifies this`sourceFileHash, this`sourceFileHashValid, this`optionHash, this`optionHashValid
      modifies this`defineHash, this`defineHashValid, this`preambleHash, this`preambleHashValid
      modifies this`memHash, this`memHashValid
      ensures h == memHash && memHashValid
      ensures old(memHashValid) ==> h == old(memHash) && unchanged(this)
      ensures !old(memHashValid) ==> sourceFileHashValid && optionHashValid && defineHashValid && preambleHashValid
      ensures old(Consistent()) ==> Consistent() && h == InputHash()
    {
      if memHashValid {
        return memHash;
      }
      RefreshPartialHashes();
      memHash := MemHashOf(hashing, sourceFileHash, optionHash, preambleHash, defineHash);
      memHashValid := true;
      h := memHash;
    }

    /** The compiler's own settings. */
    twostate predicate SettingsUnchanged()
      reads this
    {
      cachePath == old(cachePath) && sourceFile == old(sourceFile) &&
      overriddenSMArch == old(overriddenSMArch) && options == old(options) &&
      defines == old(defines) && preamble == old(preamble)
    }

    /** `compile`: `staticInit` first, whose discovery outcome is `tk`; when
        it ends in `fail` nothing more happens. A module cached under the memo
        hash is returned without running the toolchain. Otherwise
        `compileCubinFile` runs once; its result, the name of the cubin file or
        empty on failure, is given as `built`, and a new module is cached
        under the hash. */
    method Compile(hasError: bool, tk: Toolkit, built: string) returns (mod: CudaModule?)
      modifies this`sourceFileHash, this`sourceFileHashValid, this`optionHash, this`optionHashValid
      modifies this`defineHash, this`defineHashValid, this`preambleHash, this`preambleHashValid
      modifies this`memHash, this`memHashValid
      modifies statics`inited, statics`nvccVersionHash, statics`nvccCommand
      modifies statics`moduleCache, statics`compilerRuns
      ensures statics.InitedFrom(hasError, tk) && SettingsUnchanged()
      ensures statics.cubinCache == old(statics.cubinCache)
      ensures old(statics.InitFails(hasError, tk)) ==>
                mod == null && unchanged(this) && statics.moduleCache == old(statics.moduleCache) &&
                statics.compilerRuns == old(statics.compilerRuns)
      ensures !old(statics.InitFails(hasError, tk)) ==>
                memHashValid && (old(memHashValid) ==> memHash == old(memHash)) &&
                (old(Consistent()) ==> Consistent() && memHash == InputHash())
      ensures !old(statics.InitFails(hasError, tk)) && memHash in old(statics.moduleCache) ==>
                mod == old(statics.moduleCache)[memHash] &&
                statics.moduleCache == old(statics.moduleCache) &&
                statics.compilerRuns == old(statics.compilerRuns)
      ensures !old(statics.InitFails(hasError, tk)) && memHash !in old(statics.moduleCache) ==>
                statics.compilerRuns == old(statics.compilerRuns) + 1 &&
                (built == "" ==> mod == null && statics.moduleCache == old(statics.moduleCache)) &&
                (built != "" ==> mod != null && fresh(mod) && mod.cubinFile == built &&
                                 statics.moduleCache == old(statics.moduleCache)[memHash := mod])
    {
      var failed := statics.StaticInit(hasError, tk);
      if failed {
        return null;
      }
      var key := GetMemHash();
      mod := statics.CacheModule(key, built);
    }

    /** `compileCubin`: the same cache discipline for the cubin bytes. On a
        miss the file `compileCubinFile` names is read in full (`bytes`)
        and a terminating 0 is appended. */
    method CompileCubin(hasError: bool, tk: Toolkit, built: string, bytes: seq<U8>) returns (cubin: array?<U8>)
      requires |bytes| < 0x7FFF_FFFF
      modifies this`sourceFileHash, this`sourceFileHashValid, this`optionHash, this`optionHashValid
      modifies this`defineHash, this`defineHashValid, this`preambleHash, this`preambleHashValid
      modifies this`memHash, this`memHashValid
      modifies statics`inited, statics`nvccVersionHash, statics`nvccCommand
      modifies statics`cubinCache, statics`compilerRuns
      ensures statics.InitedFrom(hasError, tk) && SettingsUnchanged()
      ensures statics.moduleCache == old(statics.moduleCache)
      ensures old(statics.InitFails(hasError, tk)) ==>
                cubin == null && unchanged(this) && statics.cubinCache == old(statics.cubinCache) &&
                statics.compilerRuns == old(statics.compilerRuns)
      ensures !old(statics.InitFails(hasError, tk)) ==>
                memHashValid && (old(memHashValid) ==> memHash == old(memHash)) &&
                (old(Consistent()) ==> Consistent() && memHash == InputHash())
      ensures !old(statics.InitFails(hasError, tk)) && memHash in old(statics.cubinCache) ==>
                cubin == old(statics.cubinCache)[memHash] &&
                statics.cubinCache == old(statics.cubinCache) &&
                statics.compilerRuns == old(statics.compilerRuns)
      ensures !old(statics.InitFails(hasError, tk)) && memHash !in old(statics.cubinCache) ==>
                statics.compilerRuns == old(statics.compilerRuns) + 1 &&
                (built == "" ==> cubin == null && statics.cubinCache == old(statics.cubinCache)) &&
                (built != "" ==> cubin != null && fresh(cubin) && cubin[..] == bytes + [0] &&
                                 statics.cubinCache == old(statics.cubinCache)[memHash := cubin])
    {
      var failed := statics.StaticInit(hasError, tk);
      if failed {
        return null;
      }
      var key := GetMemHash();
      cubin := statics.CacheCubin(key, built, bytes);
    }

    /** `runPreprocessor`. `preprocessOk` is whether the preprocessing
        command succeeded, `log` the lines of its log file, `lines` those of
        the preprocessed source. The result holds the cubin file name, the
        final options and the error message set on failure. */
    method RunPreprocessor(p: Platform, dev: Device, is64: bool, preprocessOk: bool,
                           log: seq<CString>, lines: seq<CString>) returns (r: Preprocessed)
      ensures !preprocessOk ==>
                r == Preprocessed("", BaseOptions(statics.staticOptions, options),
                                  Some(LoggedMessage(PreprocessFailed, log)))
      ensures preprocessOk ==>
                r == Preprocessed(CubinName(p, cachePath, CubinWords(hashing, lines, r.finalOpts, statics.nvccVersionHash).b,
                                            CubinWords(hashing, lines, r.finalOpts, statics.nvccVersionHash).c),
                                  FinalOptions(statics.staticOptions, statics.staticBinaryFormat, options, lines,
                                               SmArch(overriddenSMArch, dev), dev.driverVersion, is64),
                                  None)
    {
      var finalOpts := "";
      if |statics.staticOptions| > 0 {
        finalOpts := finalOpts + statics.staticOptions + " ";
      }
      finalOpts := finalOpts + options;
      if !preprocessOk {
        var message := SetLoggedError(PreprocessFailed, log);
        return Preprocessed("", finalOpts, Some(message));
      }
      if |statics.staticBinaryFormat| > 0 {
        finalOpts := finalOpts + statics.staticBinaryFormat;
      } else {
        finalOpts := finalOpts + "-cubin";
      }
      finalOpts := finalOpts + " ";
      assert finalOpts == BaseOptions(statics.staticOptions, options) + FormatOption(statics.staticBinaryFormat);
      ghost var withLines := AppendOptions(BaseOptions(statics.staticOptions, options)
                                           + FormatOption(statics.staticBinaryFormat), lines);
      var t;
      finalOpts, t := FilterLines(hashing, lines, finalOpts, Seed(hashing));
      assert finalOpts == withLines;
      var smArch := overriddenSMArch;
      if smArch == 0 && dev.available {
        smArch := dev.computeCapability;
      }
      if smArch != 0 {
        finalOpts := RemoveOption(finalOpts, "-arch", true);
        finalOpts := RemoveOption(finalOpts, "--gpu-architecture", true);
        finalOpts := finalOpts + "-arch sm_" + FormatDecimal(smArch) + " ";
      }
      assert smArch == SmArch(overriddenSMArch, dev);
      assert finalOpts == ArchOverride(withLines, smArch);
      if dev.driverVersion >= 32 {
        finalOpts := RemoveOption(finalOpts, "-m32", false);
        finalOpts := RemoveOption(finalOpts, "-m64", false);
        finalOpts := RemoveOption(finalOpts, "--machine", true);
        finalOpts := finalOpts + (if is64 then "-m64 " else "-m32 ");
      }
      var u := Mix(hashing, Triple(Add32(t.a, HashOf(hashing, finalOpts)),
                                  Add32(t.b, statics.nvccVersionHash), t.c));
      r := Preprocessed(CubinName(p, cachePath, u.b, u.c), finalOpts, None);
    }
  }

  /** With driver 3.2 or later the final options end with the build's
      pointer-width flag, whatever options came before. */
  lemma MachineOverrideEnds(opts: string, driverVersion: int, is64: bool)
    requires driverVersion >= 32
    ensures var r := MachineOverride(opts, driverVersion, is64);
            |r| >= 5 && r[|r| - 5..] == (if is64 then "-m64 " else "-m32 ")
  {
  }

  /** Without an override or device, and before driver 3.2, the options
      after preprocessing are exactly the base options, the format and the
      directives' options. */
  lemma NoOverrideKeepsOptions(opts: string, dev: Device, is64: bool)
    requires !dev.available && dev.driverVersion < 32
    ensures MachineOverride(ArchOverride(opts, SmArch(0, dev)), dev.driverVersion, is64) == opts
  {
  }
}
