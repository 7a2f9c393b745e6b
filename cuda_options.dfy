/** The string utilities of the CUDA compiler driver (CudaCompiler.cpp):
    splitting a path list such as `PATH`, splicing an option out of an
    nvcc command line, and assembling an error message from a log file. */
module CudaOptions {

  /** The lines `BufferedInputStream::readLine` returns are C strings. */
  type CString = s: string | '\0' !in s

  /** `String::indexOf(chr, fromIdx)`: the first position at or after
      `from` holding `c`, or -1. */
  function IndexOf(s: string, c: char, from: nat): (r: int)
    ensures r == -1 || from <= r < |s|
    ensures r != -1 ==> s[r] == c
    decreases |s| - from
  {
    if from >= |s| then -1
    else if s[from] == c then from
    else IndexOf(s, c, from + 1)
  }

  /** What `IndexOf` passes over does not hold `c`: nothing from `from`
      on when it finds none, nothing before the position it finds. */
  lemma {:induction false} IndexOfFirst(s: string, c: char, from: nat)
    ensures IndexOf(s, c, from) == -1 ==> forall j :: from <= j < |s| ==> s[j] != c
    ensures IndexOf(s, c, from) != -1 ==> forall j :: from <= j < IndexOf(s, c, from) ==> s[j] != c
    decreases |s| - from
  {
    if from < |s| && s[from] != c {
      IndexOfFirst(s, c, from + 1);
    }
  }

  /** Searching a suffix finds the same separator, shifted. */
  lemma IndexOfSuffix(s: string, c: char, start: nat, q: int)
    requires start <= |s| && q == IndexOf(s, c, start)
    ensures q == -1 ==> IndexOf(s[start..], c, 0) == -1
    ensures q != -1 ==> IndexOf(s[start..], c, 0) == q - start
  {
    var t := s[start..];
    IndexOfFirst(s, c, start);
    IndexOfFirst(t, c, 0);
    assert forall k :: 0 <= k < |t| ==> t[k] == s[k + start];
    if q == -1 {
      assert forall k :: 0 <= k < |t| ==> t[k] != c;
    } else {
      assert t[q - start] == c;
      assert forall k :: 0 <= k < q - start ==> t[k] != c;
    }
  }

  // ---------------------------------------------------------------------
  // splitPathList

  /** The items of a separator list: the text before the first separator,
      then the items of the rest. A separator at the very end does not
      begin another (empty) item. */
  function Fields(v: string, sep: char): seq<string>
    decreases |v|
  {
    if v == [] then []
    else
      var e := IndexOf(v, sep, 0);
      if e == -1 then [v] else [v[..e]] + Fields(v[e + 1..], sep)
  }

  /** One pair of surrounding double quotes is taken off an item of at least
      two characters that begins and ends with one. */
  function StripQuotes(item: string): string {
    if |item| >= 2 && item[0] == '"' && item[|item| - 1] == '"' then item[1..|item| - 1] else item
  }

  /** Putting the quotes back around a quoted item gives the item; an item
      that is not quoted is left as it is. */
  lemma StripQuotesRemovesPair(item: string)
    ensures |item| >= 2 && item[0] == '"' && item[|item| - 1] == '"' ==> item == ['"'] + StripQuotes(item) + ['"']
    ensures !(|item| >= 2 && item[0] == '"' && item[|item| - 1] == '"') ==> StripQuotes(item) == item
  {
    if |item| >= 2 && item[0] == '"' && item[|item| - 1] == '"' {
      assert item == [item[0]] + item[1..|item| - 1] + [item[|item| - 1]];
    }
  }

  function StripAll(items: seq<string>): seq<string> {
    if items == [] then [] else [StripQuotes(items[0])] + StripAll(items[1..])
  }

  /** The entries `splitPathList` appends for `value`. */
  function PathItems(value: string, sep: char): seq<string> {
    StripAll(Fields(value, sep))
  }

  /** The rest of `value` from `start`, empty once `start` is past its end. */
  function Rest(value: string, start: nat): string {
    if start <= |value| then value[start..] else []
  }

  lemma {:induction false} StripAllConcat(a: seq<string>, b: seq<string>)
    ensures StripAll(a + b) == StripAll(a) + StripAll(b)
  {
    if a == [] {
      assert a + b == b;
    } else {
      assert (a + b)[1..] == a[1..] + b;
      StripAllConcat(a[1..], b);
    }
  }

  /** The first item of a non-empty value ends at its first separator. */
  lemma FieldsFirst(v: string, sep: char, e: int)
    requires v != [] && e == IndexOf(v, sep, 0)
    ensures e == -1 ==> Fields(v, sep) == [v]
    ensures e != -1 ==> Fields(v, sep) == [v[..e]] + Fields(v[e + 1..], sep)
  {
  }

  /** Where the item that starts at `start` ends. */
  function ItemEnd(value: string, sep: char, start: nat): (end: nat)
    requires start < |value|
    ensures start <= end <= |value|
    ensures end < |value| ==> value[end] == sep
  {
    var e := IndexOf(value, sep, start);
    if e == -1 then |value| else e
  }

  lemma FieldsStepInner(value: string, sep: char, start: nat, e: nat)
    requires start < |value| && e == IndexOf(value, sep, start)
    ensures Fields(value[start..], sep) == [value[start..e]] + Fields(value[e + 1..], sep)
  {
    var rest := value[start..];
    IndexOfSuffix(value, sep, start, e);
    var k := e - start;
    assert k == IndexOf(rest, sep, 0);
    var head, tail := rest[..k], rest[k + 1..];
    assert head == value[start..e];
    assert tail == value[e + 1..];
    FieldsFirst(rest, sep, k);
    assert Fields(rest, sep) == [head] + Fields(tail, sep);
  }

  lemma FieldsStepLast(value: string, sep: char, start: nat)
    requires start < |value| && IndexOf(value, sep, start) == -1
    ensures Fields(value[start..], sep) == [value[start..|value|]] + Fields(Rest(value, |value| + 1), sep)
  {
    assert Rest(value, |value| + 1) == [];
    assert value[start..|value|] == value[start..];
    IndexOfSuffix(value, sep, start, -1);
    FieldsFirst(value[start..], sep, -1);
  }

  /** One step of the loop: the item at `start` and the items after it. */
  lemma FieldsStep(value: string, sep: char, start: nat, end: nat)
    requires start < |value| && end == ItemEnd(value, sep, start)
    ensures Fields(value[start..], sep) == [value[start..end]] + Fields(Rest(value, end + 1), sep)
  {
    var e := IndexOf(value, sep, start);
    if e != -1 {
      assert end == e && Rest(value, end + 1) == value[e + 1..];
      FieldsStepInner(value, sep, start, e);
    } else {
      assert end == |value|;
      FieldsStepLast(value, sep, start);
    }
  }

  lemma PathItemsStep(value: string, sep: char, start: nat, end: nat)
    requires start < |value| && end == ItemEnd(value, sep, start)
    ensures PathItems(Rest(value, start), sep)
            == [StripQuotes(value[start..end])] + PathItems(Rest(value, end + 1), sep)
  {
    var item, later := value[start..end], Fields(Rest(value, end + 1), sep);
    assert Rest(value, start) == value[start..];
    FieldsStep(value, sep, start, end);
    StripAllConcat([item], later);
    assert StripAll([item]) == [StripQuotes(item)];
  }

  /** The loop of `splitPathList` appends the item at `start` and moves
      past the separator that ends it. */
  lemma SplitAdvance(goal: seq<string>, value: string, sep: char, out: seq<string>, start: nat, end: nat, item: string)
    requires start < |value| && end == ItemEnd(value, sep, start)
    requires item == StripQuotes(value[start..end])
    requires out + PathItems(Rest(value, start), sep) == goal
    ensures (out + [item]) + PathItems(Rest(value, end + 1), sep) == goal
  {
    PathItemsStep(value, sep, start, end);
    AssociateItems(out, [item], PathItems(Rest(value, end + 1), sep));
  }

  lemma AssociateItems(a: seq<string>, b: seq<string>, c: seq<string>)
    ensures (a + b) + c == a + (b + c)
  {
  }

  /** `splitPathList(res, value)`: appends to `res` one entry per item of
      `value`, each with one pair of surrounding quotes removed. */
  method SplitPathList(res: seq<string>, value: string, sep: char) returns (out: seq<string>)
    ensures out == res + PathItems(value, sep)
  {
    ghost var goal := res + PathItems(value, sep);
    out := res;
    var startIdx := 0;
    assert Rest(value, 0) == value;
    while startIdx < |value|
      invariant startIdx <= |value| + 1
      invariant out + PathItems(Rest(value, startIdx), sep) == goal
      decreases |value| + 1 - startIdx
    {
      var endIdx := IndexOf(value, sep, startIdx);
      if endIdx == -1 {
        endIdx := |value|;
      }
      var item := value[startIdx..endIdx];
      if |item| >= 2 && item[0] == '"' && item[|item| - 1] == '"' {
        item := item[1..|item| - 1];
      }
      SplitAdvance(goal, value, sep, out, startIdx, endIdx, item);
      out := out + [item];
      startIdx := endIdx + 1;
    }
    assert Rest(value, startIdx) == [];
  }

  function Join(items: seq<string>, sep: char): string {
    if items == [] then []
    else if |items| == 1 then items[0]
    else items[0] + [sep] + Join(items[1..], sep)
  }

  /** No item contains the separator. */
  lemma {:induction false} FieldsHaveNoSeparator(v: string, sep: char)
    ensures forall i :: 0 <= i < |Fields(v, sep)| ==> sep !in Fields(v, sep)[i]
    decreases |v|
  {
    if v != [] {
      var e := IndexOf(v, sep, 0);
      IndexOfFirst(v, sep, 0);
      if e != -1 {
        FieldsHaveNoSeparator(v[e + 1..], sep);
        assert forall j :: 0 <= j < e ==> v[..e][j] != sep;
      } else {
        assert forall j :: 0 <= j < |v| ==> v[j] != sep;
      }
    }
  }

  /** Joining the items with the separator gives the value back, less a
      separator that ended it. */
  lemma {:induction false} FieldsJoin(v: string, sep: char)
    ensures Join(Fields(v, sep), sep) + (if v != [] && v[|v| - 1] == sep then [sep] else []) == v
    decreases |v|
  {
    if v != [] {
      var e := IndexOf(v, sep, 0);
      FieldsFirst(v, sep, e);
      if e != -1 {
        var head, rest := v[..e], v[e + 1..];
        SplitAtSeparator(v, e);
        FieldsJoin(rest, sep);
        if rest == [] {
          assert Fields(v, sep) == [head];
          assert v == head + [sep];
        } else {
          var fs := Fields(rest, sep);
          var tail := if rest[|rest| - 1] == sep then [sep] else [];
          assert v[|v| - 1] == rest[|rest| - 1];
          FieldsNonEmpty(rest, sep);
          JoinCons(head, fs, sep);
          Associate(head + [sep], Join(fs, sep), tail);
        }
      } else {
        IndexOfFirst(v, sep, 0);
        assert v[|v| - 1] != sep;
      }
    }
  }

  /** A separator at `e` divides the value into the text before and after it. */
  lemma SplitAtSeparator(v: string, e: int)
    requires 0 <= e < |v|
    ensures v == v[..e] + [v[e]] + v[e + 1..]
  {
  }

  lemma JoinCons(x: string, items: seq<string>, sep: char)
    requires items != []
    ensures Join([x] + items, sep) == x + [sep] + Join(items, sep)
  {
    assert ([x] + items)[1..] == items;
  }

  lemma FieldsNonEmpty(v: string, sep: char)
    requires v != []
    ensures |Fields(v, sep)| >= 1
  {
  }

  // ---------------------------------------------------------------------
  // removeOption

  /** The characters of `tag` start at position `i` of `res`. */
  predicate Matches(res: string, i: nat, tag: string) {
    i + |tag| <= |res| && forall k :: 0 <= k < |tag| ==> res[i + k] == tag[k]
  }

  /** Where the text deleted on a match at `i` ends: the first space at or
      after `i`, or with `hasParam` the space after that; -1 if there is none. */
  function DeleteEnd(res: string, i: nat, hasParam: bool): int
    requires i < |res|
  {
    var idx := IndexOf(res, ' ', i);
    if idx != -1 && hasParam then IndexOf(res, ' ', idx + 1) else idx
  }

  function CountSpaces(s: string): nat {
    if s == [] then 0 else (if s[0] == ' ' then 1 else 0) + CountSpaces(s[1..])
  }

  /** One match at `i` deleted: the text from `i` through the next space
      (through the second space with `hasParam`), or all of the text from
      `i` when that space does not exist. */
  function Splice(res: string, i: nat, hasParam: bool): (r: string)
    requires i < |res|
    ensures |r| < |res| && |r| >= i && r[..i] == res[..i]
    ensures DeleteEnd(res, i, hasParam) == -1 ==> r == res[..i]
    ensures DeleteEnd(res, i, hasParam) != -1 ==>
              var e := DeleteEnd(res, i, hasParam);
              i <= e < |res| && res[e] == ' ' && r == res[..i] + res[e + 1..]
  {
    var idx := DeleteEnd(res, i, hasParam);
    res[..i] + (if idx == -1 then "" else res[idx + 1..])
  }

  /** The deleted text holds exactly one space without a parameter and
      exactly two with one, the last of them ending it. */
  lemma {:induction false} SpliceDeletesThroughSpace(res: string, i: nat, hasParam: bool)
    requires i < |res| && DeleteEnd(res, i, hasParam) != -1
    ensures var e := DeleteEnd(res, i, hasParam);
            CountSpaces(res[i..e + 1]) == (if hasParam then 2 else 1)
  {
    var first := IndexOf(res, ' ', i);
    var e := DeleteEnd(res, i, hasParam);
    OneSpaceThrough(res, i);
    if hasParam {
      assert first != -1 && e == IndexOf(res, ' ', first + 1);
      OneSpaceThrough(res, first + 1);
      var a, b := res[i..first + 1], res[first + 1..e + 1];
      SliceSplit(res, i, first + 1, e + 1);
      SpacesConcat(a, b);
      assert CountSpaces(a) == 1 && CountSpaces(b) == 1;
    } else {
      assert e == first;
    }
  }

  lemma SliceSplit(s: string, a: nat, b: nat, c: nat)
    requires a <= b <= c <= |s|
    ensures s[a..c] == s[a..b] + s[b..c]
  {
  }

  /** From `from` through the next space there is exactly one space. */
  lemma OneSpaceThrough(res: string, from: nat)
    requires IndexOf(res, ' ', from) != -1
    ensures var e := IndexOf(res, ' ', from);
            CountSpaces(res[from..e + 1]) == 1
  {
    var e := IndexOf(res, ' ', from);
    IndexOfFirst(res, ' ', from);
    var s := res[from..e];
    assert forall j :: 0 <= j < |s| ==> s[j] == res[from + j];
    NoSpaces(s);
    SpacesConcat(s, [' ']);
    assert res[from..e + 1] == s + [' '];
  }

  lemma {:induction false} NoSpaces(s: string)
    requires forall j :: 0 <= j < |s| ==> s[j] != ' '
    ensures CountSpaces(s) == 0
  {
    if s != [] {
      NoSpaces(s[1..]);
    }
  }

  lemma {:induction false} SpacesConcat(a: string, b: string)
    ensures CountSpaces(a + b) == CountSpaces(a) + CountSpaces(b)
  {
    if a != [] {
      assert (a + b)[1..] == a[1..] + b;
      SpacesConcat(a[1..], b);
    } else {
      assert a + b == b;
    }
  }

  /** What the loop of `removeOption` computes from position `i` on: at a
      match the text is spliced and the same position is examined again. */
  function Scan(res: string, i: nat, tag: string, hasParam: bool): string
    requires i <= |res|
    decreases |res|, |res| - i
  {
    if i >= |res| then res
    else if Matches(res, i, tag) then Scan(Splice(res, i, hasParam), i, tag, hasParam)
    else Scan(res, i + 1, tag, hasParam)
  }

  /** `removeOption(opts, tag, hasParam)`. */
  method RemoveOption(opts: string, tag: string, hasParam: bool) returns (res: string)
    ensures res == Scan(opts, 0, tag, hasParam)
  {
    res := opts;
    var i := 0;
    while i < |res|
      invariant i <= |res|
      invariant Scan(res, i, tag, hasParam) == Scan(opts, 0, tag, hasParam)
      decreases |res|, |res| - i
    {
      var found := true;
      var j := 0;
      while found && j < |tag|
        invariant 0 <= j <= |tag|
        invariant found == (i + j <= |res| && forall k :: 0 <= k < j ==> res[i + k] == tag[k])
      {
        found := i + j < |res| && res[i + j] == tag[j];
        j := j + 1;
      }
      assert found == Matches(res, i, tag);
      if !found {
        i := i + 1;
        continue;
      }
      var idx := IndexOf(res, ' ', i);
      if idx != -1 && hasParam {
        idx := IndexOf(res, ' ', idx + 1);
      }
      assert idx == DeleteEnd(res, i, hasParam);
      res := res[..i] + (if idx == -1 then "" else res[idx + 1..]);
      // `i--` followed by the loop's `i++`: the same position is examined again.
    }
  }

  /** Without any occurrence of the tag the options come back unchanged. */
  lemma {:induction false} ScanWithoutMatch(res: string, i: nat, tag: string, hasParam: bool)
    requires i <= |res|
    requires forall k :: i <= k < |res| ==> !Matches(res, k, tag)
    ensures Scan(res, i, tag, hasParam) == res
    decreases |res| - i
  {
    if i < |res| {
      ScanWithoutMatch(res, i + 1, tag, hasParam);
    }
  }

  lemma RemoveOptionUnchanged(opts: string, tag: string, hasParam: bool)
    requires forall k :: 0 <= k < |opts| ==> !Matches(opts, k, tag)
    ensures Scan(opts, 0, tag, hasParam) == opts
  {
    ScanWithoutMatch(opts, 0, tag, hasParam);
  }

  /** The scan never touches the text before its position and never
      lengthens the options. */
  lemma {:induction false} ScanKeepsPrefix(res: string, i: nat, tag: string, hasParam: bool)
    requires i <= |res|
    ensures var r := Scan(res, i, tag, hasParam);
            i <= |r| <= |res| && r[..i] == res[..i]
    decreases |res|, |res| - i
  {
    if i < |res| {
      if Matches(res, i, tag) {
        var s := Splice(res, i, hasParam);
        ScanKeepsPrefix(s, i, tag, hasParam);
      } else {
        ScanKeepsPrefix(res, i + 1, tag, hasParam);
        var r := Scan(res, i + 1, tag, hasParam);
        assert r[..i] == r[..i + 1][..i];
      }
    }
  }

  /** With a first occurrence at `p`, the text before `p` survives and the
      result is strictly shorter. */
  lemma {:induction false} ScanFirstMatch(res: string, i: nat, p: nat, tag: string, hasParam: bool)
    requires i <= p < |res| && Matches(res, p, tag)
    requires forall k :: i <= k < p ==> !Matches(res, k, tag)
    ensures var r := Scan(res, i, tag, hasParam);
            p <= |r| < |res| && r[..p] == res[..p]
    decreases p - i
  {
    if i < p {
      ScanFirstMatch(res, i + 1, p, tag, hasParam);
    } else {
      var s := Splice(res, p, hasParam);
      ScanKeepsPrefix(s, p, tag, hasParam);
    }
  }

  lemma RemoveOptionFirstMatch(opts: string, p: nat, tag: string, hasParam: bool)
    requires p < |opts| && Matches(opts, p, tag)
    requires forall k :: 0 <= k < p ==> !Matches(opts, k, tag)
    ensures var r := Scan(opts, 0, tag, hasParam);
            p <= |r| < |opts| && r[..p] == opts[..p]
  {
    ScanFirstMatch(opts, 0, p, tag, hasParam);
  }

  /** A splice can recreate the tag in front of the scan position, and that
      occurrence is kept: "aab bc" without "ab" is "abc". */
  lemma RemoveOptionCanLeaveTag()
    ensures Scan("aab bc", 0, "ab", false) == "abc"
    ensures Matches("abc", 0, "ab")
  {
    var s := "aab bc";
    assert !Matches(s, 0, "ab") by { assert s[0 + 1] != "ab"[1]; }
    assert Matches(s, 1, "ab") by { assert s[1] == 'a' && s[2] == 'b'; }
    assert IndexOf(s, ' ', 1) == 3 by {
      assert s[1] != ' ' && s[2] != ' ' && s[3] == ' ';
    }
    assert Splice(s, 1, false) == "abc" by {
      assert s[..1] == "a" && s[4..] == "bc";
    }
    var t := "abc";
    assert !Matches(t, 1, "ab") by { assert t[1 + 0] != "ab"[0]; }
    assert !Matches(t, 2, "ab");
    assert Scan(t, 3, "ab", false) == t;
    assert Matches(t, 0, "ab") by { assert t[0] == 'a' && t[1] == 'b'; }
  }

  // ---------------------------------------------------------------------
  // setLoggedError

  /** What one log line adds to the message: nothing when it is empty,
      otherwise a line break and the line. */
  function LogPiece(line: string): string {
    if line == [] then [] else ['\n'] + line
  }

  function LogText(lines: seq<string>): string {
    if lines == [] then [] else LogText(lines[..|lines| - 1]) + LogPiece(lines[|lines| - 1])
  }

  /** The message `setLoggedError` reports: the description, then the log
      without its first line (the command that was run). */
  function LoggedMessage(description: string, log: seq<string>): string {
    description + LogText(if log == [] then [] else log[1..])
  }

  /** `setLoggedError(description, logFile)`, with the lines of the log
      file given: returns the message it passes to `setError`. */
  method SetLoggedError(description: string, log: seq<CString>) returns (message: string)
    ensures message == LoggedMessage(description, log)
  {
    message := description;
    if |log| == 0 {
      return;
    }
    var i := 1;
    while i < |log|
      invariant 1 <= i <= |log|
      invariant message == description + LogText(log[1..i])
    {
      var line := log[i];
      ghost var before := message;
      if |line| > 0 {
        message := message + ['\n'];
      }
      message := message + line;
      LogAppend(description, log, i, before, message);
      i := i + 1;
    }
    LoggedMessageOfLoop(description, log, message);
  }

  /** After the last line the message is the one `setError` receives. */
  lemma LoggedMessageOfLoop(description: string, log: seq<string>, message: string)
    requires log != [] && message == description + LogText(log[1..|log|])
    ensures message == LoggedMessage(description, log)
  {
    assert log[1..|log|] == log[1..];
  }

  /** One turn of the loop of `setLoggedError` adds the next line's piece. */
  lemma LogAppend(description: string, log: seq<string>, i: nat, before: string, after: string)
    requires 1 <= i < |log| && before == description + LogText(log[1..i])
    requires after == (if |log[i]| > 0 then before + ['\n'] else before) + log[i]
    ensures after == description + LogText(log[1..i + 1])
  {
    var lines := log[1..i + 1];
    assert lines[..|lines| - 1] == log[1..i] && lines[|lines| - 1] == log[i];
    assert LogText(lines) == LogText(log[1..i]) + LogPiece(log[i]);
    if |log[i]| > 0 {
      Associate(before, ['\n'], log[i]);
    } else {
      assert after == before + [];
    }
    Associate(description, LogText(log[1..i]), LogPiece(log[i]));
  }

  lemma Associate(a: string, b: string, c: string)
    ensures (a + b) + c == a + (b + c)
  {
  }

  function NonEmptyLines(lines: seq<string>): seq<string> {
    if lines == [] then []
    else (if lines[0] == [] then [] else [lines[0]]) + NonEmptyLines(lines[1..])
  }

  lemma {:induction false} LogTextFront(lines: seq<string>)
    requires lines != []
    ensures LogText(lines) == LogPiece(lines[0]) + LogText(lines[1..])
    decreases |lines|
  {
    if |lines| > 1 {
      var init := lines[..|lines| - 1];
      LogTextFront(init);
      assert init[1..] == lines[1..][..|lines[1..]| - 1];
      assert LogText(lines[1..]) == LogText(init[1..]) + LogPiece(lines[|lines| - 1]);
    } else {
      assert lines[..0] == [];
      assert lines[1..] == [];
    }
  }

  lemma FieldsOfSeparated(a: string, b: string, sep: char)
    requires a != [] && sep !in a
    ensures Fields(a + [sep] + b, sep) == [a] + Fields(b, sep)
  {
    var v := a + [sep] + b;
    assert v[|a|] == sep;
    assert IndexOf(v, sep, 0) == |a| by {
      IndexOfFirst(v, sep, 0);
      forall j | 0 <= j < |a| ensures v[j] != sep { assert v[j] == a[j]; }
    }
    assert v[..|a|] == a;
    assert v[|a| + 1..] == b;
  }

  lemma FieldsOfSingle(a: string, sep: char)
    requires a != [] && sep !in a
    ensures Fields(a, sep) == [a]
  {
    assert IndexOf(a, sep, 0) == -1;
  }

  lemma {:induction false} LogSkipsEmptyLine(first: string, lines: seq<string>)
    requires lines != [] && lines[0] == []
    ensures first + LogText(lines) == first + LogText(lines[1..])
    ensures NonEmptyLines(lines) == NonEmptyLines(lines[1..])
  {
    LogTextFront(lines);
    assert LogText(lines) == LogText(lines[1..]);
  }

  lemma {:induction false} LogBreaksBeforeLine(first: string, lines: seq<string>)
    requires lines != [] && lines[0] != []
    ensures first + LogText(lines) == first + ['\n'] + (lines[0] + LogText(lines[1..]))
    ensures NonEmptyLines(lines) == [lines[0]] + NonEmptyLines(lines[1..])
  {
    LogTextFront(lines);
    Regroup(first, ['\n'], lines[0], LogText(lines[1..]));
  }

  lemma Regroup(a: string, b: string, c: string, d: string)
    ensures a + ((b + c) + d) == (a + b) + (c + d)
  {
  }

  lemma {:induction false} FieldsOfLog(first: string, lines: seq<string>)
    requires first != [] && '\n' !in first
    requires forall i :: 0 <= i < |lines| ==> '\n' !in lines[i]
    ensures Fields(first + LogText(lines), '\n') == [first] + NonEmptyLines(lines)
    decreases |lines|
  {
    if lines == [] {
      assert first + LogText(lines) == first;
      FieldsOfSingle(first, '\n');
    } else {
      var rest := lines[1..];
      assert forall i :: 0 <= i < |rest| ==> '\n' !in rest[i] by {
        forall i | 0 <= i < |rest| ensures '\n' !in rest[i] { assert rest[i] == lines[i + 1]; }
      }
      if lines[0] == [] {
        LogSkipsEmptyLine(first, lines);
        FieldsOfLog(first, rest);
      } else {
        LogBreaksBeforeLine(first, lines);
        FieldsOfSeparated(first, lines[0] + LogText(rest), '\n');
        FieldsOfLog(lines[0], rest);
      }
    }
  }

  /** Split at its line breaks, the message gives back the description and
      the non-empty log lines after the first, in order. */
  lemma LoggedMessageLines(description: string, log: seq<CString>)
    requires description != [] && '\n' !in description
    requires forall i :: 0 <= i < |log| ==> '\n' !in log[i]
    ensures Fields(LoggedMessage(description, log), '\n')
            == [description] + NonEmptyLines(if log == [] then [] else log[1..])
  {
    var tail := if log == [] then [] else log[1..];
    assert forall i :: 0 <= i < |tail| ==> '\n' !in tail[i] by {
      forall i | 0 <= i < |tail| ensures '\n' !in tail[i] { assert tail[i] == log[i + 1]; }
    }
    FieldsOfLog(description, tail);
  }
}
