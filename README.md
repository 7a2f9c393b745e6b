# A verified model of the framework's key names, CUDA driver utilities, thread bookkeeping and window input

This project models four sequential pieces of the C++ GPU framework used by the
temporal light-field reconstruction code, and proves what the code promises
about them:

- **Key names** (`Keys.cpp`). `unicodeToKey` spells a code point as `U+` and at
  least four upper-case hexadecimal digits. `keyToUnicode` parses that spelling
  back and answers 0 for anything else. The dead-key switch of `vkeyToKey` maps
  sixteen dead-key codes to combining marks. The round trip, the error cases and
  the range bound are proved (module `Keys`; the `sprintf` conversions it relies
  on are in module `Format`).
- **The CUDA compiler driver** (`CudaCompiler.cpp`). Module `CudaOptions` has the
  string utilities: `splitPathList` (items between separators, one pair of
  quotes stripped), `removeOption` (splicing a flag, or a flag and its parameter,
  out of an nvcc command line) and the message `setLoggedError` builds from a
  log. Module `CudaCompiler` has:
  - the memoised hash `getMemHash` with its four partial hashes and validity
    flags;
  - the process-wide module and cubin caches of `compile` and `compileCubin`;
  - `staticInit`, `staticDeinit` and `flushMemCache`;
  - the pass of `runPreprocessor`, which filters the preprocessed source,
    assembles the final nvcc options and names the cached cubin file.

  The hash primitives (`hash<String>`, `FW_JENKINS_MIX`, `FW_HASH_MAGIC`) are
  defined in a header that is not part of this model. They are parameters (a
  `Hashing` value) and nothing is assumed about them.
- **Thread bookkeeping** (`Thread.cpp`, `Thread.hpp`), single-threaded (module
  `Threads`). It covers:
  - the counting semaphore of the Qt build;
  - the re-entrant monitor's counters, as step functions with a class that
    follows them;
  - a thread's keyed user data and the deinit calls it makes;
  - the reference count that defers `exited()`;
  - the registry of started threads with its main thread.
- **Window input and listeners** (`WindowQt.cpp`, `Window.hpp`; module
  `Windows`). It covers:
  - the listener list and the order `postEvent` offers events in;
  - the events built from the window's mouse state;
  - the wheel accumulator;
  - the keys held down and the mouse-drag count;
  - the size deferred while full screen;
  - the key flush on activation.

  Listeners are opaque: how they answer `handleEvent` is a parameter, and every
  call they receive is recorded. The Qt widget is reduced to a log of the calls
  made on it.

Where the source mutates state in place, the model is a class whose methods
change its fields. Each method is proved against a function of the old state,
and the properties are proved about those functions. The loops of the source are
`while` loops with invariants.

## Model

All paths are under `src/framework/`.

| member | source | states |
|---|---|---|
| Format.HexDigitValue | src/framework/gui/Keys.cpp:60-63 | the value of a hexadecimal digit is below 16 |
| Format.HexChar | src/framework/gui/Keys.cpp:43 | the digit written for a value below 16 is a digit of the requested case and has that value |
| Format.HexDigits | src/framework/gui/Keys.cpp:43 | the shortest hexadecimal spelling of n. It has at least one digit, all of the requested case, and denotes n. It has no leading zero when n > 0, and it is one digit exactly when n < 16 |
| Format.HexDigitsLength | src/framework/gui/Keys.cpp:43 | a number below 16^k needs at most k digits |
| Format.Zeros | src/framework/gui/Keys.cpp:43 | the padding of a `%0` width: k zero digits |
| Format.HexValueOfZeros | src/framework/gui/Keys.cpp:43 | the padding denotes 0 |
| Format.HexValueLeadingZeros | src/framework/gui/Keys.cpp:43 | zero padding in front of a numeral keeps its value |
| Format.FormatHex | src/framework/gui/Keys.cpp:43 | `%0<width>X` / `%0<width>x`. The result is at least `width` digits of the requested case and denotes n. It is exactly `width` digits when n < 16^width, and padding appears only when needed |
| Format.DecimalDigits | src/framework/gpu/CudaCompiler.cpp:669 | decimal digits that denote n, with no leading zero when n > 0 |
| Format.FormatDecimal | src/framework/gpu/CudaCompiler.cpp:669 | `%d`. For n >= 0 the digits of n; for n < 0 a minus sign, then the digits of -n |
| Keys.UnicodeToKey | src/framework/gui/Keys.cpp:40-44 | for 0 <= cp <= 0x10FFFF, `U+` and at least four upper-case hex digits denoting cp. There is no leading zero beyond the four, and exactly four digits up to 0xFFFF |
| Keys.NulIndex | src/framework/gui/Keys.cpp:50 | the position of the first NUL of the key, or its length |
| Keys.CString | src/framework/gui/Keys.cpp:50 | what `getPtr()` shows C code: the longest NUL-free prefix |
| Keys.HexValuePrefix | src/framework/gui/Keys.cpp:67-68 | a prefix of a numeral never has a larger value than the whole, so an overflowing prefix means an overflowing key |
| Keys.KeyToUnicode | src/framework/gui/Keys.cpp:48-73 | the loop answers `KeyCode(key)`, always within [0, 0x10FFFF] |
| Keys.KeyDigitsExtend | src/framework/gui/Keys.cpp:58-63 | `cp <<= 4; cp += digit` extends the value by one digit |
| Keys.KeyCodeStops | src/framework/gui/Keys.cpp:60-68 | the early `return 0` at a non-digit, or at a digit that passes 0x10FFFF, agrees with `KeyCode` |
| Keys.KeyCodeAtEnd | src/framework/gui/Keys.cpp:56-72 | when the loop reaches the NUL, the code point it returns is the value of the digits |
| Keys.KeyRoundTrip | src/framework/gui/Keys.cpp:40-72 | parsing the name of every code point 0..0x10FFFF gives the code point back |
| Keys.KeyCodeNeedsPrefix | src/framework/gui/Keys.cpp:53-54 | a key that does not begin with `U` and then `+` parses to 0 |
| Keys.KeyCodeRejectsNonDigit | src/framework/gui/Keys.cpp:60-65 | a character other than `0-9` and `A-F` before the NUL, lower-case `a-f` included, makes the key parse to 0 |
| Keys.KeyCodeRejectsLargePrefix | src/framework/gui/Keys.cpp:67-68 | digits that exceed 0x10FFFF make the key parse to 0, whatever follows |
| Keys.KeyCodeEmptyDigits | src/framework/gui/Keys.cpp:56-72 | `U+` with no digits parses to 0, and `U+0041` to 0x41 |
| Keys.DeadKeyToCombining | src/framework/gui/Keys.cpp:237-256 | exactly the sixteen listed dead-key codes change, each to a combining mark; every other value is left unchanged |
| Keys.DeadKeysDistinct | src/framework/gui/Keys.cpp:237-256 | different dead keys give different combining marks |
| Keys.VirtualCodeToKey | src/framework/gui/Keys.cpp:237-260 | code point 0 after the remap gives the empty key. A remapped value outside the Unicode range fails `unicodeToKey`'s assertion. Any other value gives a key that parses back to the remapped code point |
| CudaOptions.IndexOf | src/framework/gpu/CudaCompiler.cpp:455 | `indexOf(chr, from)` answers -1 or a position at or after `from` that holds the character |
| CudaOptions.IndexOfFirst | src/framework/gpu/CudaCompiler.cpp:455 | with -1 there is no such character from `from` on; otherwise the answer is the first one |
| CudaOptions.IndexOfSuffix | src/framework/gpu/CudaCompiler.cpp:453-455 | searching from `startIdx` is searching the rest of the value, shifted |
| CudaOptions.StripQuotesRemovesPair | src/framework/gpu/CudaCompiler.cpp:460-461 | an item of length >= 2 that begins and ends with `"` loses exactly that pair; any other item is unchanged |
| CudaOptions.StripAllConcat | src/framework/gpu/CudaCompiler.cpp:460-462 | quotes are stripped item by item |
| CudaOptions.FieldsFirst | src/framework/gpu/CudaCompiler.cpp:455-459 | the first item of a non-empty value ends at its first separator, or is the whole value |
| CudaOptions.FieldsNonEmpty | src/framework/gpu/CudaCompiler.cpp:453-464 | a non-empty value has at least one item |
| CudaOptions.ItemEnd | src/framework/gpu/CudaCompiler.cpp:455-457 | `endIdx` lies between `startIdx` and the length, and before the end it is a separator |
| CudaOptions.FieldsStepInner | src/framework/gpu/CudaCompiler.cpp:455-464 | from `startIdx`, a separator at `endIdx` cuts off the next item |
| CudaOptions.FieldsStepLast | src/framework/gpu/CudaCompiler.cpp:455-464 | without a separator, the rest of the value is the last item |
| CudaOptions.FieldsStep | src/framework/gpu/CudaCompiler.cpp:455-464 | one turn of the loop takes exactly the next item and continues past its separator |
| CudaOptions.PathItemsStep | src/framework/gpu/CudaCompiler.cpp:455-464 | the entry appended in one turn is the next item with its quotes stripped |
| CudaOptions.SplitAdvance | src/framework/gpu/CudaCompiler.cpp:462-464 | appending that entry and skipping the separator keeps what is still to come |
| CudaOptions.SplitPathList | src/framework/gpu/CudaCompiler.cpp:451-466 | `res` is kept as a prefix and gets one entry per item of the value, in order, each with one pair of quotes stripped. An empty value appends nothing, and a separator at the very end does not begin an item |
| CudaOptions.FieldsHaveNoSeparator | src/framework/gpu/CudaCompiler.cpp:455-459 | no item contains the separator |
| CudaOptions.FieldsJoin | src/framework/gpu/CudaCompiler.cpp:451-466 | joining the items with the separator gives the value back, after a final separator is dropped, so no text is lost |
| CudaOptions.FieldsOfSeparated | src/framework/gpu/CudaCompiler.cpp:455-459 | a separator-free head followed by a separator is the first item |
| CudaOptions.FieldsOfSingle | src/framework/gpu/CudaCompiler.cpp:455-457 | a non-empty separator-free value is a single item |
| CudaOptions.Splice | src/framework/gpu/CudaCompiler.cpp:487-492 | a match at i deletes from i through the next space (through the space after the parameter with `hasParam`). Without that space it truncates at i. The text before i is untouched and the result is strictly shorter |
| CudaOptions.SpliceDeletesThroughSpace | src/framework/gpu/CudaCompiler.cpp:487-492 | the deleted text holds exactly one space, or exactly two with a parameter |
| CudaOptions.OneSpaceThrough | src/framework/gpu/CudaCompiler.cpp:487-489 | from a position through the next space there is exactly one space |
| CudaOptions.RemoveOption | src/framework/gpu/CudaCompiler.cpp:477-497 | the loop, with its `i--` after a splice, computes `Scan` |
| CudaOptions.ScanWithoutMatch | src/framework/gpu/CudaCompiler.cpp:480-485 | without a match from i on, the options are unchanged |
| CudaOptions.RemoveOptionUnchanged | src/framework/gpu/CudaCompiler.cpp:477-497 | options in which the tag occurs nowhere come back unchanged |
| CudaOptions.ScanKeepsPrefix | src/framework/gpu/CudaCompiler.cpp:486-493 | the text before the scan position is never touched, and the options never grow |
| CudaOptions.ScanFirstMatch | src/framework/gpu/CudaCompiler.cpp:486-493 | with a first match at p, the text before p survives and the result is strictly shorter |
| CudaOptions.RemoveOptionFirstMatch | src/framework/gpu/CudaCompiler.cpp:477-497 | every removal with a match strictly shortens the options and keeps the text before the first match |
| CudaOptions.RemoveOptionCanLeaveTag | src/framework/gpu/CudaCompiler.cpp:491-493 | a splice can recreate the tag before the scan position, and it stays: `aab bc` without `ab` is `abc` |
| CudaOptions.SetLoggedError | src/framework/gpu/CudaCompiler.cpp:722-739 | the message is the description followed by the log after its first line, each non-empty line preceded by a line break |
| CudaOptions.LoggedMessageOfLoop | src/framework/gpu/CudaCompiler.cpp:728-737 | when the lines run out, the message is the one passed to `setError` |
| CudaOptions.LogAppend | src/framework/gpu/CudaCompiler.cpp:734-736 | one turn appends `\n` for a non-empty line, then the line |
| CudaOptions.LogTextFront | src/framework/gpu/CudaCompiler.cpp:729-736 | the log text is the first line's piece followed by the rest |
| CudaOptions.LogSkipsEmptyLine | src/framework/gpu/CudaCompiler.cpp:734-735 | an empty log line adds nothing to the message |
| CudaOptions.LogBreaksBeforeLine | src/framework/gpu/CudaCompiler.cpp:734-736 | a non-empty log line is added after a line break |
| CudaOptions.FieldsOfLog | src/framework/gpu/CudaCompiler.cpp:729-736 | split at line breaks, the text gives its first part and then the non-empty lines |
| CudaOptions.LoggedMessageLines | src/framework/gpu/CudaCompiler.cpp:722-739 | split at its line breaks, the message gives back the description and then the non-empty log lines after the first, in order |
| CudaCompiler.Add32 | src/framework/gpu/CudaCompiler.cpp:536-541 | `U32` addition wraps modulo 2^32 |
| CudaCompiler.Pack64 | src/framework/gpu/CudaCompiler.cpp:543 | `((U64)b << 32) \| c` has high word b and low word c |
| CudaCompiler.Pack64Injective | src/framework/gpu/CudaCompiler.cpp:526 | packed words are equal only when both halves are |
| CudaCompiler.CudaModule.constructor | src/framework/gpu/CudaCompiler.cpp:121 | a module remembers the cubin file it is loaded from |
| CudaCompiler.CompilerStatics.constructor | src/framework/gpu/CudaCompiler.cpp:61-70 | the static settings start empty, the compiler uninitialised, both caches empty and the version hash 0 |
| CudaCompiler.CompilerStatics.StaticInit | src/framework/gpu/CudaCompiler.cpp:207-387 | nothing changes when the compiler is already initialised or an error is pending. Otherwise the flag is set, and the version hash of the `nvcc` found is recorded (line 294). The nvcc command line is recorded once the include path is found too (lines 374-386). `failed` is whether no `nvcc` or no `cuda.h` was found, where the source calls `fail` (lines 299, 347). The caches and settings are unchanged |
| CudaCompiler.CompilerStatics.FlushMemCache | src/framework/gpu/CudaCompiler.cpp:410-419 | both caches are emptied; nothing else changes |
| CudaCompiler.CompilerStatics.StaticDeinit | src/framework/gpu/CudaCompiler.cpp:391-405 | the four static settings are always cleared. The caches and the nvcc command are cleared only when the compiler was initialised. Afterwards it is not initialised |
| CudaCompiler.BlankCount | src/framework/gpu/CudaCompiler.cpp:634-635 | the number of leading blanks is at most the line's length |
| CudaCompiler.BlankCountIsLeadingRun | src/framework/gpu/CudaCompiler.cpp:634-635 | the trim skips exactly the leading run of spaces and tabs |
| CudaCompiler.BlankCountOfIndent | src/framework/gpu/CudaCompiler.cpp:634-635 | blanks put in front of a line lengthen that run by as many |
| CudaCompiler.ClassifyIgnoresIndent | src/framework/gpu/CudaCompiler.cpp:634-652 | indentation by spaces and tabs does not change how a line is treated |
| CudaCompiler.FilterLine | src/framework/gpu/CudaCompiler.cpp:629-656 | one line is trimmed, then: a `#` line or an empty line is ignored; a directive adds its suffix and a space to the options; other `//` lines are dropped; any other line is hashed |
| CudaCompiler.FilterLines | src/framework/gpu/CudaCompiler.cpp:627-656 | the loop adds the directives' options in line order and hashes exactly the code lines, in order |
| CudaCompiler.FilterPrefix | src/framework/gpu/CudaCompiler.cpp:627-656 | one more line extends the options and the hashed lines by that line's share |
| CudaCompiler.LinesTripleSnoc | src/framework/gpu/CudaCompiler.cpp:652-655 | a hashed line is folded in after the earlier ones |
| CudaCompiler.LinesTripleAppend | src/framework/gpu/CudaCompiler.cpp:652-655 | hashing continues from the words so far |
| CudaCompiler.AppendOptionsConcat | src/framework/gpu/CudaCompiler.cpp:645-647 | directives of two stretches of the file add the first stretch's options, then the second's |
| CudaCompiler.AppendOptionsKeepsPrefix | src/framework/gpu/CudaCompiler.cpp:645-647 | the options already present stay as a prefix |
| CudaCompiler.HashedLinesConcat | src/framework/gpu/CudaCompiler.cpp:651-655 | the hashed lines of two stretches are those of the first, then those of the second |
| CudaCompiler.SingleLine | src/framework/gpu/CudaCompiler.cpp:629-656 | the filter of a one-line file |
| CudaCompiler.SkippedLineAddsNoOptions | src/framework/gpu/CudaCompiler.cpp:639-652 | a comment, a `#` line or a blank line adds no options, wherever it stands |
| CudaCompiler.SkippedLineNotHashed | src/framework/gpu/CudaCompiler.cpp:639-655 | nor does it change what is hashed |
| CudaCompiler.DirectiveContributes | src/framework/gpu/CudaCompiler.cpp:645-647 | an indented `// EMIT_NVCC_OPTIONS ` line adds exactly its suffix and a space to the options. It is not hashed |
| CudaCompiler.CubinDigits | src/framework/gpu/CudaCompiler.cpp:693 | `%08x%08x` is 16 lower-case hex digits, the first eight denoting b and the last eight c |
| CudaCompiler.HexValueConcat | src/framework/gpu/CudaCompiler.cpp:693 | two numerals written one after the other denote the first shifted by the second's width, plus the second |
| CudaCompiler.CubinNameInjective | src/framework/gpu/CudaCompiler.cpp:693 | the cubin file name determines both hash words |
| CudaCompiler.Compiler.constructor | src/framework/gpu/CudaCompiler.cpp:74-92 | the defaults `cudacache`, `unspecified.cu` and no SM override, all hashes 0 and none valid |
| CudaCompiler.Compiler.HashDefines | src/framework/gpu/CudaCompiler.cpp:519-526 | the define loop gives `DefineHash` of the defines in slot order |
| CudaCompiler.Compiler.RefreshPartialHashes | src/framework/gpu/CudaCompiler.cpp:505-534 | each partial hash not yet valid is computed from its input; the valid ones are kept. All four are valid afterwards |
| CudaCompiler.Compiler.RefreshSourceFileHash | src/framework/gpu/CudaCompiler.cpp:505-509 | the source file hash is computed when not valid, then marked valid |
| CudaCompiler.Compiler.RefreshOptionHash | src/framework/gpu/CudaCompiler.cpp:511-515 | the option hash is computed when not valid, then marked valid |
| CudaCompiler.Compiler.RefreshDefineHash | src/framework/gpu/CudaCompiler.cpp:517-528 | the define hash is computed when not valid, then marked valid |
| CudaCompiler.Compiler.RefreshPreambleHash | src/framework/gpu/CudaCompiler.cpp:530-534 | the preamble hash is computed when not valid, then marked valid |
| CudaCompiler.Compiler.GetMemHash | src/framework/gpu/CudaCompiler.cpp:500-546 | a valid memo is returned and nothing changes; otherwise all five flags end up valid. When every valid hash matched its input, they still do and the answer is the hash of the current inputs |
| CudaCompiler.CompilerStatics.CacheModule | src/framework/gpu/CudaCompiler.cpp:108-122 | a module cached under the hash is returned with no toolchain run. Otherwise there is exactly one run. An empty cubin name gives NULL and the cache unchanged; any other name caches a new module under the hash |
| CudaCompiler.CompilerStatics.CacheCubin | src/framework/gpu/CudaCompiler.cpp:134-156 | the same for cubins; a new entry is the file's bytes followed by a terminating 0 |
| CudaCompiler.Compiler.Compile | src/framework/gpu/CudaCompiler.cpp:102-123 | `staticInit` as `StaticInit` states; when it ends in `fail`, NULL and nothing else changes. Otherwise the memo hash is made valid and is the hash of the current inputs. Then the cache step of `CacheModule` applies under it. The compiler's settings, the cubin cache and the static options are unchanged |
| CudaCompiler.Compiler.CompileCubin | src/framework/gpu/CudaCompiler.cpp:128-157 | the same with the cubin cache; a new cubin is the file's bytes followed by a terminating 0, and the module cache is unchanged |
| CudaCompiler.Compiler.RunPreprocessor | src/framework/gpu/CudaCompiler.cpp:585-694 | on failure the base options and the logged error message. Otherwise the final options are the base options, the format, the directives' options, then the architecture and pointer-width overrides, and the cubin name is formed from the hash of the code lines, the final options and the nvcc version |
| CudaCompiler.MachineOverrideEnds | src/framework/gpu/CudaCompiler.cpp:674-685 | from driver 3.2 on, the final options end with the build's `-m64 ` or `-m32 ` |
| CudaCompiler.NoOverrideKeepsOptions | src/framework/gpu/CudaCompiler.cpp:660-685 | without an SM override or a device, and before driver 3.2, the options pass through unchanged |
| Threads.Semaphore.constructor | src/framework/base/Thread.cpp:120-125 | `maxCount` permits, less `maxCount - initCount` when `initCount` is smaller (defaults 1 and 1, Thread.hpp:71) |
| Threads.Semaphore.Acquire | src/framework/base/Thread.cpp:135-138 | a permit is taken when there is one; otherwise nothing changes. The call times out with a non-negative limit and blocks with the default -1 (Thread.hpp:74) |
| Threads.Semaphore.Release | src/framework/base/Thread.cpp:142-145 | one more permit |
| Threads.EnterStep | src/framework/base/Thread.cpp:237-252 | the owner re-enters by counting up without the semaphore. Any other thread takes the owner semaphore's permit. The step keeps the monitor invariant |
| Threads.LeaveStep | src/framework/base/Thread.cpp:256-262 | the count goes down, and the permit comes back when it reaches 0 |
| Threads.WaitBeginStep | src/framework/base/Thread.cpp:266-274 | the first half of `wait` counts one waiter in and gives the monitor up |
| Threads.NotifyStep | src/framework/base/Thread.cpp:289-297 | nothing happens without waiters; otherwise one waiter is let through |
| Threads.NotifyAllWakesAll | src/framework/base/Thread.cpp:301-309 | `notifyAll` lets every waiter through and changes nothing else |
| Threads.WaitEndStep | src/framework/base/Thread.cpp:276-284 | the second half of `wait` takes the monitor back with the saved owner and enter count |
| Threads.EntersCount | src/framework/base/Thread.cpp:237-252 | k enters count up by k and take the owner semaphore at most once |
| Threads.LeavesRelease | src/framework/base/Thread.cpp:256-262 | fewer leaves than enters keep the monitor held; as many release it |
| Threads.EnterLeaveBalance | src/framework/base/Thread.cpp:237-262 | n enters on a free monitor need exactly n leaves before the permit is back |
| Threads.WaitRoundTrip | src/framework/base/Thread.cpp:266-297 | wait, another thread's enter, notify and leave, then the end of the wait, give the state back: the waiter holds the monitor with its count, and the wait count is where it was |
| Threads.Monitor.constructor | src/framework/base/Thread.cpp:219-227 | semaphores (1, 1), (0, 1) and (0, 1); owner, enter count and wait count 0 |
| Threads.Monitor.Enter | src/framework/base/Thread.cpp:237-252 | `EnterStep` when the thread can enter; otherwise it blocks and nothing changes |
| Threads.Monitor.Leave | src/framework/base/Thread.cpp:256-262 | `LeaveStep`, for the owner only |
| Threads.Monitor.WaitBegin | src/framework/base/Thread.cpp:266-274 | `WaitBeginStep`, returning the saved owner and enter count |
| Threads.Monitor.WaitEnd | src/framework/base/Thread.cpp:280-284 | `WaitEndStep` once the thread is let through and the monitor is free; otherwise nothing |
| Threads.Monitor.Notify | src/framework/base/Thread.cpp:289-297 | `NotifyStep`, for the owner only |
| Threads.Monitor.NotifyAll | src/framework/base/Thread.cpp:301-309 | the loop computes `NotifyAllStep` |
| Threads.SetSlot | src/framework/base/Thread.cpp:604-616 | the slot of `id` exists exactly when the data or the deinit function is non-null, and holds them. Every other slot is unchanged |
| Threads.ReplacedDeinit | src/framework/base/Thread.cpp:604-624 | at most one deinit call: the old slot's function with the old data, when it had one |
| Threads.GetAfterSet | src/framework/base/Thread.cpp:579-625 | `getUserData(id)` after `setUserData(id, d, f)` is d, and other ids answer as before |
| Threads.SetSlotTwice | src/framework/base/Thread.cpp:604-616 | setting NULL data without a function removes the slot; a second set of the same id replaces the first entirely |
| Threads.DeinitCallsComplete | src/framework/base/Thread.cpp:339-344 | the destructor calls only non-null deinit functions of slots, each with its data, and every slot's non-null function is called |
| Threads.DeinitCallsCount | src/framework/base/Thread.cpp:339-344 | at most one call per slot, and none when no slot has a function |
| Threads.StartedStep | src/framework/base/Thread.cpp:672-693 | the first thread started becomes main. The id is added only when absent, and no other entry changes |
| Threads.ExitedStep | src/framework/base/Thread.cpp:697-728 | nothing happens without a handle. Otherwise exactly the id leaves the registry, and main is cleared if it was this thread |
| Threads.StartedIdempotent | src/framework/base/Thread.cpp:684-690 | a second `started()` with a registered id changes nothing, so there is one entry per id |
| Threads.StartedThenExited | src/framework/base/Thread.cpp:672-728 | starting and then exiting a new thread that is not main gives the registry back |
| Threads.Registry.constructor | src/framework/base/Thread.cpp:85-86 | no threads and no main thread |
| Threads.Thread.constructor | src/framework/base/Thread.cpp:313-319 | count 0, id 0, no handle, normal priority and no user data, with `m_exited` false (see Findings) |
| Threads.Thread.AsWritten | src/framework/base/Thread.cpp:313-319 | the same, with `m_exited` holding an arbitrary value (see Findings) |
| Threads.Thread.GetUserData | src/framework/base/Thread.cpp:579-586 | the slot's data, NULL without a slot |
| Threads.Thread.SetUserData | src/framework/base/Thread.cpp:590-625 | the slots become `SetSlot`, and the deinit calls made are `ReplacedDeinit`. A plain set without a function uses the NULL default (Thread.hpp:166) |
| Threads.Thread.Exited | src/framework/base/Thread.cpp:697-728 | `ExitedStep` on the registry; id and handle reset |
| Threads.Thread.Started | src/framework/base/Thread.cpp:672-693 | `StartedStep` on the registry, with this thread's id and handle |
| Threads.Thread.Refer | src/framework/base/Thread.cpp:650-655 | the count goes up by one |
| Threads.Thread.Unrefer | src/framework/base/Thread.cpp:659-668 | the count goes down by one. `exited()` runs, with `m_exited` cleared first, exactly when the count reaches 0 with `m_exited` set; otherwise nothing else changes (Thread.hpp:172) |
| Threads.Thread.SetPriority | src/framework/base/Thread.cpp:444-451 | the priority is stored and the count is unchanged. The deferred `exited()` runs exactly when the count was 0 with `m_exited` set |
| Threads.Thread.MarkExited | src/framework/base/Thread.cpp:331-334 | `refer`, `m_exited = true`, `unrefer`: with no other reference the thread exits now; otherwise the exit stays deferred |
| Threads.Thread.Destroy | src/framework/base/Thread.cpp:323-345 | the `this != getCurrent()` test registers the calling thread when its id is absent, as `getCurrent` does (Thread.cpp:383-384), and answers the registered or new thread. Then the thread is marked exited. With no other reference it exits at once: it leaves the registry after that registration and loses its id and handle. Otherwise the exit stays deferred, and id, handle and the registry after the registration are kept. Last, the remaining deinit functions are called in slot order |
| Threads.Thread.CallDeinits | src/framework/base/Thread.cpp:339-344 | the destructor's loop calls exactly `DeinitCalls`: each slot's non-null deinit function on its data, in slot order |
| Threads.GetCurrent | src/framework/base/Thread.cpp:374-388 | the registered thread of the id with the registry unchanged; otherwise a new thread that registers itself. It uses the corrected constructor, so the new thread's `m_exited` is false (see Findings) |
| Threads.GetCurrentAsWritten | src/framework/base/Thread.cpp:374-388 | the same with the constructor as written: a new thread's `m_exited` is whatever the memory held |
| Threads.UninitialisedExitedDropsThread | src/framework/base/Thread.cpp:383-384 | for any registry and any id not registered: as written, when `m_exited` holds true, `getCurrent` followed by `setPriority` (Thread.cpp:444-451, 659-668) unregisters the new thread at once. The registry ends as it was and the thread loses its id and handle |
| Threads.InitialisedExitedKeepsThread | src/framework/base/Thread.cpp:383-384 | with `m_exited` initialised, the same calls leave the thread registered under its id, with its handle |
| Windows.KeyUnicode | src/framework/gui/WindowQt.cpp:390 | `keyUnicode` is within [0, 0x10FFFF] and 0 for an event without a key |
| Windows.GenericEvent | src/framework/gui/WindowQt.cpp:386-399 | the event carries its arguments. The delta is zero unless both the new and the stored position are known. Dragging means a non-zero drag count |
| Windows.KeyEventCarriesCodePoint | src/framework/gui/WindowQt.cpp:390 | a key event for the name of a code point has that code point as `keyUnicode` |
| Windows.MouseDeltaIsMotion | src/framework/gui/WindowQt.cpp:394 | a mouse event reports the motion from the known position |
| Windows.Reverse | src/framework/gui/WindowQt.cpp:412-414 | the last-to-first order has every listener |
| Windows.ReverseAt | src/framework/gui/WindowQt.cpp:412-414 | position k of the last-to-first order is listener n-1-k |
| Windows.ReverseReverse | src/framework/gui/WindowQt.cpp:412-414 | reversing twice gives the list back |
| Windows.DispatchShape | src/framework/gui/WindowQt.cpp:406-422 | the listeners called are a prefix of the order. No listener is called once the error is set. Every listener but the last neither consumed the event nor set the error, and the dispatch stops early only at one that did |
| Windows.DispatchReachesAll | src/framework/gui/WindowQt.cpp:406-422 | with no error and nobody consuming, every listener gets the event |
| Windows.Deliveries | src/framework/gui/WindowQt.cpp:414 | one `handleEvent` call per listener called |
| Windows.OfferFrontDispatches | src/framework/gui/WindowQt.cpp:418-420 | the first-to-last loop makes exactly the calls `Dispatch` describes |
| Windows.OfferBackDispatches | src/framework/gui/WindowQt.cpp:412-414 | the last-to-first loop makes exactly the calls `Dispatch` describes over the reversed list |
| Windows.PostDispatches | src/framework/gui/WindowQt.cpp:403-425 | key, character and mouse events go last to first, all others first to last |
| Windows.PostEventsSnoc | src/framework/gui/WindowQt.cpp:403-425 | posting one more event extends the traffic by that post |
| Windows.PostEventsRecords | src/framework/gui/WindowQt.cpp:403-425 | every event posted is recorded in order, and listener calls are only appended |
| Windows.PostEventsAfterError | src/framework/gui/WindowQt.cpp:413-419 | once the error is set, no listener is called any more |
| Windows.Without | src/framework/gui/WindowQt.cpp:258 | `removeItem` shortens the list by one and removes only that listener |
| Windows.WithoutRemoves | src/framework/gui/WindowQt.cpp:258 | in a list without duplicates the listener is gone entirely and no duplicate appears |
| Windows.WithoutLast | src/framework/gui/WindowQt.cpp:266-267 | removing the last listener drops the last entry |
| Windows.WithoutLastAt | src/framework/gui/WindowQt.cpp:266-267 | the same, by position |
| Windows.NotifyLastFirstEffect | src/framework/gui/WindowQt.cpp:264-268 | `removeListeners` notifies each listener once, last to first. The error is set if any of those calls sets it |
| Windows.RemovalNoticesAt | src/framework/gui/WindowQt.cpp:264-268 | notice k goes to listener n-1-k |
| Windows.PressReleaseAt | src/framework/gui/WindowQt.cpp:520-531 | n notches are 2n events alternating press and release |
| Windows.WheelSplits | src/framework/gui/WindowQt.cpp:519-531 | the delta splits into whole notches and a rest strictly inside (-120, 120) of the same sign, with nothing lost; two events per notch |
| Windows.EnumeratesEachOnce | src/framework/gui/WindowQt.cpp:486-487 | the slot walk lists every held key once and nothing else |
| Windows.KeyUpsAt | src/framework/gui/WindowQt.cpp:486-487 | the flush posts one key-up per held key, in slot order |
| Windows.CharEventsAt | src/framework/gui/WindowQt.cpp:556-557 | one character event per text unit, in order |
| Windows.PostEventsConcat | src/framework/gui/WindowQt.cpp:403-425 | posting a and then b is posting a + b |
| Windows.PostPressReleaseStep | src/framework/gui/WindowQt.cpp:522-523 | one more notch posts a press and then a release |
| Windows.NotchedPostsPressRelease | src/framework/gui/WindowQt.cpp:520-531 | counting by notch is posting the press and release events |
| Windows.WheelLoops | src/framework/gui/WindowQt.cpp:519-531 | the two wheel loops leave the rest of the accumulated delta and post exactly its wheel events; only one of them runs |
| Windows.PostKeyUpStep | src/framework/gui/WindowQt.cpp:486-487 | one more turn of the flush posts the next key-up |
| Windows.PostCharStep | src/framework/gui/WindowQt.cpp:556-557 | one more turn of the character loop posts the next character |
| Windows.ButtonKey | src/framework/gui/WindowQt.cpp:570-579 | left, middle and right name mouse keys |
| Windows.ButtonKeysDistinct | src/framework/gui/WindowQt.cpp:570-575 | different buttons have different keys |
| Windows.DragCountTracksButtons | src/framework/gui/WindowQt.cpp:583-597 | a press or release keeps the drag count equal to the number of mouse buttons held. Pressing twice or releasing twice is the same as doing it once |
| Windows.PressAddsButton | src/framework/gui/WindowQt.cpp:583-590 | a newly pressed button adds one held mouse button |
| Windows.ReleaseRemovesButton | src/framework/gui/WindowQt.cpp:591-597 | releasing a held button removes one |
| Windows.OtherKeyKeepsButtons | src/framework/gui/WindowQt.cpp:546-551 | a key that is not a mouse button leaves the held buttons as they were |
| Windows.OpenWindows.constructor | src/framework/gui/WindowQt.cpp:47-48 | not initialised, no open windows |
| Windows.OpenWindows.StaticInit | src/framework/gui/WindowQt.cpp:337-347 | the flag is set; the list of open windows is created only on the first call |
| Windows.OpenWindows.GetNumOpen | src/framework/gui/Window.hpp:143 | 0 when not initialised, the number of open windows otherwise |
| Windows.Window.constructor | src/framework/gui/WindowQt.cpp:53-80 | the defaults, the default size applied to the widget, not full screen, and the window added to the open windows |
| Windows.Window.CreateGenericEvent | src/framework/gui/WindowQt.cpp:386-399 | the event `GenericEvent` describes, from the window's mouse state |
| Windows.Window.CreateSimpleEvent | src/framework/gui/Window.hpp:148 | no key, character 0, the window's mouse state |
| Windows.Window.CreateKeyEvent | src/framework/gui/Window.hpp:149 | `KeyDown` when down, `KeyUp` otherwise, character 0 |
| Windows.Window.CreateCharEvent | src/framework/gui/Window.hpp:150 | a `Char` event with no key |
| Windows.Window.CreateMouseEvent | src/framework/gui/Window.hpp:151 | a `Mouse` event at the given position |
| Windows.Window.DraggingMeansButtonHeld | src/framework/gui/Window.hpp:122-124 | with no flush pending, `isMouseDragging()` holds exactly when some mouse key `isKeyDown` |
| Windows.Window.PostEvent | src/framework/gui/WindowQt.cpp:403-425 | the mouse state is taken from the event and the traffic is `Post`, so the dispatch order and stop rule are those of `PostDispatches` |
| Windows.Window.OfferLastFirst | src/framework/gui/WindowQt.cpp:412-414 | the last-to-first loop computes `OfferBack` |
| Windows.Window.OfferFirstLast | src/framework/gui/WindowQt.cpp:418-420 | the first-to-last loop computes `OfferFront` |
| Windows.Window.AddListener | src/framework/gui/WindowQt.cpp:242-249 | NULL and present listeners are ignored. Otherwise exactly one entry is appended and that listener alone is told. No duplicates ever |
| Windows.Window.RemoveListener | src/framework/gui/WindowQt.cpp:253-260 | absent listeners are ignored. Otherwise exactly that listener is removed and told |
| Windows.Window.RemoveListeners | src/framework/gui/WindowQt.cpp:264-268 | the list ends empty, each listener told once, last to first |
| Windows.Window.SetSize | src/framework/gui/WindowQt.cpp:104-115 | while full screen the size is only recorded; otherwise the widget is resized |
| Windows.Window.SetFullScreen | src/framework/gui/WindowQt.cpp:135-154 | nothing when unchanged. Entering shows full screen. Leaving shows normal, applies the pending size if any, and resets it to -1 |
| Windows.Window.ToggleFullScreen | src/framework/gui/Window.hpp:107 | full screen becomes the negation of what it was: entering shows full screen; leaving shows normal and applies the pending size if any. The pending size is cleared either way |
| Windows.Window.Wheel | src/framework/gui/WindowQt.cpp:518-532 | the accumulator ends strictly inside (-120, 120) as the rest of the delta, and exactly the wheel events of the delta are posted |
| Windows.Window.PostNotch | src/framework/gui/WindowQt.cpp:522-523 | one press and release of the wheel key |
| Windows.Window.WheelUps | src/framework/gui/WindowQt.cpp:520-525 | one wheel-up pair per whole notch; the rest stays |
| Windows.Window.WheelDowns | src/framework/gui/WindowQt.cpp:526-531 | one wheel-down pair per whole notch; the rest stays |
| Windows.Window.MouseButtonInput | src/framework/gui/WindowQt.cpp:561-603 | another button is refused with nothing changed. Otherwise the button is tracked and its key event posted |
| Windows.Window.TrackButton | src/framework/gui/WindowQt.cpp:583-597 | a new press is added and counted, a held release removed and uncounted, and the mouse is released with the last one. Repeats change nothing |
| Windows.Window.KeyInput | src/framework/gui/WindowQt.cpp:539-559 | a named key's event is posted and tracked, then one character event per text unit of a press |
| Windows.Window.KeyHead | src/framework/gui/WindowQt.cpp:546-552 | the named-key half: its event is posted and the keys held down are updated |
| Windows.Window.PostChars | src/framework/gui/WindowQt.cpp:556-557 | the character loop posts one event per text unit, only while the key is down |
| Windows.Window.PostChar | src/framework/gui/WindowQt.cpp:557 | one turn of that loop |
| Windows.Window.TrackKey | src/framework/gui/WindowQt.cpp:548-551 | a press adds the key and a release removes it; the drag count stays right |
| Windows.Window.FlushKeys | src/framework/gui/WindowQt.cpp:484-488 | one key-up per held key, in slot order, then no key is held and no flush is pending |
| Windows.Window.PostKeyUp | src/framework/gui/WindowQt.cpp:487 | one turn of the flush loop |
| Windows.Window.Activate | src/framework/gui/WindowQt.cpp:472-493 | activation or discarding resets the drag count, the wheel accumulator and the known flag, releases the mouse if dragging, and schedules the flush. The flush runs unless discarding. The answer is whether events are discarded |
| Windows.Window.Process | src/framework/gui/WindowQt.cpp:500-610 | the answer of `event(QEvent*)`, which paths return early, and the window invariant kept |
| Windows.Window.HandleCase | src/framework/gui/WindowQt.cpp:507-607 | the switch's answer per event kind, and the window invariant kept |
| Windows.Window.OnEvent | src/framework/gui/WindowQt.cpp:497-611 | as written, for every event and window: the answer as for `Process`. The nesting level ends one higher exactly after a discarded event, a close or a mouse move, and is unchanged otherwise |
| Windows.Window.OnEventBalanced | src/framework/gui/WindowQt.cpp:497-611 | the same answer, and every path leaves the nesting level as it found it |
| Windows.CloseLeavesNestingRaised | src/framework/gui/WindowQt.cpp:508-511 | one concrete instance of `OnEvent`'s contract, whose nesting-level clause is the evidence: a close request on a new window leaves the level one higher |
| Windows.CloseKeepsNestingBalanced | src/framework/gui/WindowQt.cpp:508-511 | the same instance for `OnEventBalanced`: the level is left as it was |

## Left out

- Concurrency: the spinlocks, real blocking and waking, timeouts and the notify/acknowledge rendezvous between threads are not modelled. Each step is one thread's step, and a step that would block reports so and changes nothing. The waiter's half of `notify` (taking the wait permit, counting out, acknowledging) is folded into the notifier's step.
- `Threads.Semaphore.Acquire`: only the Qt build (`QSemaphore`) is modelled. The Win32 build's `CreateSemaphore` cap on the count and its `failWin32Error` paths are not modelled.
- Thread start, `threadProc`/`ThreadWrapper`, `join`, `isAlive`, `suspendAll`, `sleep`, `yield`, `getMain`, `isMain`, `getID` and `getPriority`: these are OS calls or blocking. Thread ids are parameters. `join` and the destructor's own branch appear only through `MarkExited`.
- The priority mapping `fwToQt`/`qtToFw` (floating point and Qt enum values); `SetPriority` stores the number only.
- `failIfError`, `setError` and the framework's error state are left out. The error is a parameter (`hasError`), a field of the window traffic, or the message returned.
- `getDiscardEvents()`, a framework global defined in a file that is not part of this model, is the parameter `discard` of `Activate`, `Process`, `OnEvent` and `OnEventBalanced`.
- `Threads.Thread.Destroy`: the assertions of `join()` that the thread is neither main nor current (Thread.cpp:476-477) are not modelled; their `getMain()`/`getCurrent()` calls register the caller again, which changes nothing once it is registered (`StartedIdempotent`). `failIfError` in the destructor's own branch is left out with the error state.
- `vkeyToKey` and `qtkeyToKey` key tables: the `VK_*`, `Qt::Key_*` and `FW_KEY_*` constants are in headers that are not part of this model. `MapVirtualKeyW` is a foreign call, so its result is the parameter of `VirtualCodeToKey`. The mouse and wheel key names are stand-in strings.
- The hash primitives `hash<String>`, `FW_JENKINS_MIX` and `FW_HASH_MAGIC` are uninterpreted parameters. The slot order of `m_defines`, of the user-data table and of the keys-down set is given as a sequence.
- The setters of `CudaCompiler.hpp` that change the inputs and clear validity flags are not part of this model. Their effect is captured by `Consistent()`, which `getMemHash` and the compile methods preserve.
- The toolchain: `staticInit`'s toolkit discovery (`queryEnv`, `fileExists`, running `nvcc --version`), `createCacheDir`, `writeDefineFile`, `initLogFile`, `runCompiler` and `compileCubinFile` run programs or touch files. Their outcomes are parameters: the `Toolkit` found (the version hash and the command line), whether preprocessing succeeded, the log and preprocessed lines, the cubin name and the bytes read. The search order over candidate paths is not modelled.
- `fail` is defined in a file that is not part of this model; it ends the program. `StaticInit` reports that it was reached, and `Compile` and `CompileCubin` then return NULL without taking any further step.
- `compileCubin` reads the size as `S32`. The model requires fewer than 2^31 - 1 bytes instead of modelling a negative size.
- `flushMemCache` in the model empties the caches. The deletion of the cached arrays and modules is not modelled (Dafny has no `delete`).
- src/framework/io/FileQt.cpp is not part of this model: it is a thin wrapper over `QFile`.
- Qt and GL side effects of `WindowQt.cpp`: widget creation and recreation, painting, GL contexts, titles, visibility, dialogs and `staticDeinit`'s window deletion. The widget is a log of resize, show and mouse-release calls.
- `Windows.Window.KeyInput`: requires that the key is not a mouse-button name. `qtkeyToKey`, which is not modelled, never produces one.
- `Windows.Window.Process`: states the answer, the early paths and the invariant, not the full new state. The per-case effects are the contracts of `Wheel`, `KeyInput`, `MouseButtonInput`, `Activate` and `PostEvent`.
- `Windows.Window.HandleCase`: states the answer and the invariant; the effects are those of the methods it calls, as for `Process`.
- `Windows.Window.OnEvent`: states the answer, the nesting level and the invariant, not the full new state; the per-case effects are those of the methods `Process` calls.
- `Windows.Window.OnEventBalanced`: the same as `OnEvent`.
- Listeners cannot call back into the window. A listener is a pure function of the event, and `Event` drops its `window` pointer (Window.hpp:78). So a `handleEvent` that calls `removeListener`, `addListener` or `postEvent` on the window during a dispatch is not modelled. The source's loops index the live `m_listeners` (WindowQt.cpp:413-420); in the model the list is fixed for the whole dispatch.
- `~Window` removes the window from `s_open` (WindowQt.cpp:83-89). Windows are never destroyed in the model, so `GetNumOpen` never decreases.
- `incNestingLevel` is defined in a file that is not part of this model; the model keeps the counter it changes.
- `Threads.Thread.SetUserData`: the model calls the old deinit function by recording the call. It does not model the lock being released before the call.

## Findings

| source | as written | input that shows it | evidently intended | confidence | as-written member | corrected member |
|---|---|---|---|---|---|---|
| src/framework/base/Thread.cpp:313-319 | the constructor's initialiser list leaves out `m_exited`, so it holds whatever the memory held | a thread not yet registered calls `getCurrent()`, which builds `new Thread` and calls `started()` (Thread.cpp:383-384), for instance the main thread through `getMain`. When the new `m_exited` happens to be true, the next refer/unrefer pair, such as `setPriority` or `getPriority`, finds the count back at 0 with `m_exited` set. It runs `exited()` on the running thread, which drops it from the registry and resets its id. Threads begun by `start()` are not affected: its `join()` leaves `m_exited` false (Thread.cpp:352, 482, 662-664) | `m_exited` initialised to false | medium, not executed | Threads.UninitialisedExitedDropsThread | Threads.InitialisedExitedKeepsThread |
| src/framework/gui/WindowQt.cpp:497-516 | `event(QEvent*)` calls `incNestingLevel(1)` first and `incNestingLevel(-1)` only at line 609. The returns at lines 501, 511 and 516 skip the decrement | a close request (`QEvent::Close`), a mouse move, or any event while events are discarded | every path undoes the increment | medium, not executed | Windows.CloseLeavesNestingRaised | Windows.CloseKeepsNestingBalanced |
