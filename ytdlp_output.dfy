/**
 * How `run_ytdlp` reads yt-dlp's output and settles a task: the progress,
 * speed and ETA read from `[download]` lines, the file name taken from
 * `Destination:` and `Merging formats into` lines, the pause and cancel
 * checks made after every line, the fallback file name, and the final
 * completed-or-error decision. The subprocess itself is replaced by its
 * output lines; its start-up failure, the sorted file-name candidates and
 * the wall-clock time are parameters.
 */
module YtdlpOutput {
  import opened Wrappers
  import opened Strings
  import opened Tasks
  import Command

  const DestinationMarker: string := "Destination:"
  const MergeMarker: string := "Merging formats into \""
  const ProgressMarker: string := "[download]"
  const MissingFileMessage: string := "Download finished but file not found"

  // ---- Scanning helpers for the two regular expressions ----

  /** The three character classes the patterns use: `[0-9.]`, `\d`, `\s`. */
  datatype CharClass = NumOrDot | Digit | Space

  predicate InClass(c: char, k: CharClass)
  {
    match k
    case NumOrDot => IsDigit(c) || c == '.'
    case Digit => IsDigit(c)
    case Space => IsSpace(c)
  }

  /** The end of the longest run of class `k` starting at `i`. */
  function RunEnd(s: string, i: nat, k: CharClass): (j: nat)
    requires i <= |s|
    ensures i <= j <= |s|
    ensures forall m :: i <= m < j ==> InClass(s[m], k)
    ensures j == |s| || !InClass(s[j], k)
    decreases |s| - i
  {
    if i < |s| && InClass(s[i], k) then RunEnd(s, i + 1, k) else i
  }

  lemma {:induction false} RunEndAt(s: string, i: nat, j: nat, k: CharClass)
    requires i <= j <= |s|
    requires forall m :: i <= m < j ==> InClass(s[m], k)
    requires j == |s| || !InClass(s[j], k)
    ensures RunEnd(s, i, k) == j
    decreases j - i
  {
    if i < j {
      RunEndAt(s, i + 1, j, k);
    }
  }

  /** A match of `([0-9.]+)\s*(KiB|MiB|GiB)/s` starting exactly at `i`:
      the number word and the unit. The greedy runs never need to give
      characters back, so the match is decided by the longest runs. */
  function SpeedAt(line: string, i: nat): (r: Option<(string, string)>)
    requires i <= |line|
    ensures r.Some? ==> r.value.0 != [] && forall m :: 0 <= m < |r.value.0| ==> InClass(r.value.0[m], NumOrDot)
    ensures r.Some? ==> r.value.1 == "KiB" || r.value.1 == "MiB" || r.value.1 == "GiB"
  {
    var j := RunEnd(line, i, NumOrDot);
    var k := RunEnd(line, j, Space);
    if j == i then None
    else if OccursAt(line, "KiB/s", k) then Some((line[i..j], "KiB"))
    else if OccursAt(line, "MiB/s", k) then Some((line[i..j], "MiB"))
    else if OccursAt(line, "GiB/s", k) then Some((line[i..j], "GiB"))
    else None
  }

  /** The leftmost `Some` among `xs[i..]`: `re.search` reports the match
      at the first position where its pattern matches. */
  function FirstMatch<T>(xs: seq<Option<T>>, i: nat): Option<T>
    requires i <= |xs|
    decreases |xs| - i
  {
    if i == |xs| then None
    else if xs[i].Some? then xs[i]
    else FirstMatch(xs, i + 1)
  }

  /** The first match is absent exactly when no position matches, and is
      otherwise the match at the first position that matches. */
  lemma {:induction false} FirstMatchLeftmost<T>(xs: seq<Option<T>>, i: nat)
    requires i <= |xs|
    ensures FirstMatch(xs, i).None? <==> forall j :: i <= j < |xs| ==> xs[j].None?
    ensures FirstMatch(xs, i).Some? ==>
      exists j :: i <= j < |xs| && xs[j] == FirstMatch(xs, i) && (forall q :: i <= q < j ==> xs[q].None?)
    decreases |xs| - i
  {
    if i < |xs| {
      FirstMatchLeftmost(xs, i + 1);
      if xs[i].None? && FirstMatch(xs, i).Some? {
        var j :| i + 1 <= j < |xs| && xs[j] == FirstMatch(xs, i + 1)
          && forall q :: i + 1 <= q < j ==> xs[q].None?;
        assert forall q :: i <= q < j ==> xs[q].None?;
      }
    }
  }

  /** The speed match starting at each position of the line. */
  function SpeedMatches(line: string): seq<Option<(string, string)>>
  {
    seq(|line|, j requires 0 <= j < |line| => SpeedAt(line, j))
  }

  /** `speed_re.search(line)`: the leftmost speed match. */
  function SpeedSearch(line: string): (r: Option<(string, string)>)
    ensures r.Some? ==> r.value.0 != [] && forall m :: 0 <= m < |r.value.0| ==> InClass(r.value.0[m], NumOrDot)
    ensures r.Some? ==> r.value.1 == "KiB" || r.value.1 == "MiB" || r.value.1 == "GiB"
  {
    FirstMatchLeftmost(SpeedMatches(line), 0);
    FirstMatch(SpeedMatches(line), 0)
  }

  /** The speed search finds nothing exactly when no match starts anywhere
      in the line, and otherwise finds the leftmost match. */
  lemma SpeedSearchLeftmost(line: string)
    ensures SpeedSearch(line).None? <==> forall j :: 0 <= j < |line| ==> SpeedAt(line, j).None?
    ensures SpeedSearch(line).Some? ==>
      exists j :: 0 <= j < |line| && SpeedAt(line, j) == SpeedSearch(line) && (forall q :: 0 <= q < j ==> SpeedAt(line, q).None?)
  {
    var xs := SpeedMatches(line);
    assert |xs| == |line| && forall j :: 0 <= j < |line| ==> xs[j] == SpeedAt(line, j);
    FirstMatchLeftmost(xs, 0);
    if SpeedSearch(line).Some? {
      var j :| 0 <= j < |xs| && xs[j] == FirstMatch(xs, 0) && (forall q :: 0 <= q < j ==> xs[q].None?);
      assert SpeedAt(line, j) == SpeedSearch(line);
    }
  }

  /** The `(\d+):(\d+)` part of the ETA pattern starting exactly at `k`. */
  function ClockAt(line: string, k: nat): (r: Option<(string, string)>)
    requires k <= |line|
    ensures r.Some? ==> IsNumeral(r.value.0) && IsNumeral(r.value.1)
  {
    var j := RunEnd(line, k, Digit);
    if j == k || j == |line| || line[j] != ':' then None
    else
      var e := RunEnd(line, j + 1, Digit);
      if e == j + 1 then None
      else Some((line[k..j], line[j + 1..e]))
  }

  /** A match of `ETA\s*(\d+):(\d+)` starting exactly at `i`: the two
      digit groups. */
  function EtaAt(line: string, i: nat): (r: Option<(string, string)>)
    requires i <= |line|
    ensures r.Some? ==> IsNumeral(r.value.0) && IsNumeral(r.value.1)
  {
    if !OccursAt(line, "ETA", i) then None
    else ClockAt(line, RunEnd(line, i + 3, Space))
  }

  /** The ETA match starting at each position of the line. */
  function EtaMatches(line: string): seq<Option<(string, string)>>
  {
    seq(|line|, j requires 0 <= j < |line| => EtaAt(line, j))
  }

  /** `eta_re.search(line)`: the leftmost ETA match. */
  function EtaSearch(line: string): (r: Option<(string, string)>)
    ensures r.Some? ==> IsNumeral(r.value.0) && IsNumeral(r.value.1)
  {
    FirstMatchLeftmost(EtaMatches(line), 0);
    FirstMatch(EtaMatches(line), 0)
  }

  /** The ETA search finds nothing exactly when no match starts anywhere in
      the line, and otherwise finds the leftmost match. */
  lemma EtaSearchLeftmost(line: string)
    ensures EtaSearch(line).None? <==> forall j :: 0 <= j < |line| ==> EtaAt(line, j).None?
    ensures EtaSearch(line).Some? ==>
      exists j :: 0 <= j < |line| && EtaAt(line, j) == EtaSearch(line) && (forall q :: 0 <= q < j ==> EtaAt(line, q).None?)
  {
    var xs := EtaMatches(line);
    assert |xs| == |line| && forall j :: 0 <= j < |line| ==> xs[j] == EtaAt(line, j);
    FirstMatchLeftmost(xs, 0);
    if EtaSearch(line).Some? {
      var j :| 0 <= j < |xs| && xs[j] == FirstMatch(xs, 0) && (forall q :: 0 <= q < j ==> xs[q].None?);
      assert EtaAt(line, j) == EtaSearch(line);
    }
  }

  /** A numeral written at `i` and not followed by a digit is exactly one
      `\d+` run. */
  lemma {:induction false} NumeralRun(line: string, i: nat, m: string)
    requires IsNumeral(m) && OccursAt(line, m, i)
    requires i + |m| == |line| || !IsDigit(line[i + |m|])
    ensures RunEnd(line, i, Digit) == i + |m|
  {
    forall q | i <= q < i + |m| ensures InClass(line[q], Digit) {
      assert line[q] == line[i..i + |m|][q - i];
    }
    RunEndAt(line, i, i + |m|, Digit);
  }

  /** The ETA pattern at `n` reads the two numerals laid out after it. */
  lemma EtaAtNumerals(line: string, n: nat, m: string, s: string)
    requires IsNumeral(m) && IsNumeral(s)
    requires OccursAt(line, "ETA", n) && n + 4 + |m| < |line| && line[n + 3] == ' '
    requires OccursAt(line, m, n + 4) && line[n + 4 + |m|] == ':'
    requires OccursAt(line, s, n + 5 + |m|) && n + 5 + |m| + |s| == |line|
    ensures EtaAt(line, n) == Some((m, s))
  {
    OccursAtChar(line, m, n + 4, 0);
    RunEndAt(line, n + 3, n + 4, Space);
    NumeralRun(line, n + 4, m);
    NumeralRun(line, n + 5 + |m|, s);
    assert line[n + 4..n + 4 + |m|] == m && line[n + 5 + |m|..|line|] == s;
    assert ClockAt(line, n + 4) == Some((m, s));
  }

  /** `ETA <m>:<s>` for two numerals, written after any text `x`, is
      matched where it starts. */
  lemma EtaOfNumerals(x: string, m: string, s: string)
    requires IsNumeral(m) && IsNumeral(s)
    ensures EtaAt(x + "ETA " + m + ":" + s, |x|) == Some((m, s))
  {
    var line := x + "ETA " + m + ":" + s;
    var a := x + "ETA ";
    var head := a + m;
    var n := |x|;
    assert line == head + (":" + s);
    assert line[..|head|] == head;
    assert line[..|a|] == a;
    assert OccursAt(line, m, n + 4) by {
      assert line[n + 4..n + 4 + |m|] == line[..|head|][|a|..];
    }
    assert OccursAt(line, s, n + 5 + |m|) by {
      assert line[n + 5 + |m|..|line|] == s;
    }
    assert OccursAt(line, "ETA", n) by {
      assert line[n..n + 3] == line[..|a|][n..n + 3];
    }
    assert line[n + 3] == ' ' && line[n + 4 + |m|] == ':';
    EtaAtNumerals(line, n, m, s);
  }

  /** The number of bytes per second in one unit of the reported speed. */
  function UnitMultiplier(unit: string): (r: nat)
    ensures unit == "KiB" ==> r == 1024
    ensures unit == "MiB" ==> r == 1024 * 1024
    ensures unit != "KiB" && unit != "MiB" ==> r == 1024 * 1024 * 1024
  {
    if unit == "KiB" then 1024 else if unit == "MiB" then 1024 * 1024 else 1024 * 1024 * 1024
  }

  /** `max(0.0, min(1.0, x))`. */
  function Clamp(x: real): (r: real)
    ensures 0.0 <= r <= 1.0
    ensures 0.0 <= x <= 1.0 ==> r == x
    ensures x < 0.0 ==> r == 0.0
    ensures x > 1.0 ==> r == 1.0
  {
    var m := if x < 1.0 then x else 1.0;
    if m < 0.0 then 0.0 else m
  }

  // ---- One output line ----

  /** The percentage word of a progress line: `line.split("%", 1)[0].split()[-1]`,
      the last word before the first `%`. */
  function PercentWord(line: string): (r: Option<string>)
    ensures r.Some? ==> r.value != [] && forall i :: 0 <= i < |r.value| ==> !IsSpace(r.value[i])
    ensures r.Some? ==> EndsWith(RStrip(BeforeFirst(line, "%")), r.value)
    ensures r.Some? ==> var b := RStrip(BeforeFirst(line, "%"));
      |r.value| == |b| || IsSpace(b[|b| - |r.value| - 1])
    ensures r.None? <==> forall i :: 0 <= i < |BeforeFirst(line, "%")| ==> IsSpace(BeforeFirst(line, "%")[i])
  {
    LastWord(BeforeFirst(line, "%"))
  }

  /** The percentage a progress line reports, when its word parses as a float. */
  function Percent(line: string): (r: Option<real>)
    ensures PercentWord(line).None? ==> r.None?
    ensures PercentWord(line).Some? ==> r == ParseFloat(PercentWord(line).value)
    ensures r.Some? && PercentWord(line).value[0] != '-' ==> r.value >= 0.0
  {
    match PercentWord(line)
    case None => None
    case Some(word) => ParseFloat(word)
  }

  /** The ETA in seconds the line reports: minutes * 60 + seconds of the
      leftmost `ETA m:s` match, or None when there is none. */
  function EtaSeconds(line: string): (r: Option<nat>)
    ensures EtaSearch(line).None? <==> r.None?
    ensures EtaSearch(line).Some? ==>
      r.Some? && r.value == DigitsValue(EtaSearch(line).value.0) * 60 + DigitsValue(EtaSearch(line).value.1)
  {
    var m := EtaSearch(line);
    if m.Some? then Some(DigitsValue(m.value.0) * 60 + DigitsValue(m.value.1)) else None
  }

  /** The ETA step of the `try` block: the ETA is stored when the line
      carries one, and nothing else changes. */
  function WithEta(t: Task, line: string): (r: Task)
    ensures EtaSeconds(line).None? ==> r == t
    ensures EtaSeconds(line).Some? ==> r == t.(eta := EtaSeconds(line))
  {
    match EtaSeconds(line)
    case Some(secs) => t.(eta := Some(secs))
    case None => t
  }

  /** The speed a line reports in bytes per second: the number of the
      leftmost speed match times its unit, or None when there is no match;
      a match whose number does not parse is the failure `Some(None)`. */
  function SpeedValue(line: string): (r: Option<Option<real>>)
    ensures r.None? <==> SpeedSearch(line).None?
    ensures r.Some? ==> (r.value.None? <==> ParseDecimal(SpeedSearch(line).value.0).None?)
  {
    var m := SpeedSearch(line);
    if m.None? then None
    else
      var v := ParseDecimal(m.value.0);
      if v.None? then Some(None) else Some(Some(InBytes(v.value, m.value.1)))
  }

  /** A speed of `v` units of `unit` per second, in bytes per second. */
  function InBytes(v: real, unit: string): real
  {
    v * UnitMultiplier(unit) as real
  }

  /** A parsed speed is the match's number scaled by its unit, so it is a
      non-negative number of bytes per second. */
  lemma SpeedValueInBytes(line: string)
    ensures SpeedValue(line).Some? && SpeedValue(line).value.Some? ==>
      var m := SpeedSearch(line).value;
      SpeedValue(line).value.value == ParseDecimal(m.0).value * UnitMultiplier(m.1) as real
      && SpeedValue(line).value.value >= 0.0
  {
    match SpeedSearch(line)
    case None =>
    case Some((n, u)) =>
      SpeedValueOf(line, n, u);
      match ParseDecimal(n)
      case None =>
      case Some(v) => InBytesNonNegative(v, u);
  }

  lemma InBytesNonNegative(v: real, unit: string)
    requires v >= 0.0
    ensures InBytes(v, unit) == v * UnitMultiplier(unit) as real && InBytes(v, unit) >= 0.0
  {
  }

  /** The `try` block for a `[download]` line with a `%`: a percentage that
      does not parse abandons the whole block; otherwise the progress is
      stored, then the speed when there is one, then the ETA, and a speed
      number that does not parse abandons the rest of the block. */
  function ProgressUpdate(t: Task, line: string): (r: Task)
    ensures r == t.(progress := r.progress, speed := r.speed, eta := r.eta)
    ensures Percent(line).None? ==> r == t
    ensures Percent(line).Some? ==> r.progress == Clamp(Percent(line).value / 100.0)
    ensures Percent(line).Some? && SpeedValue(line).None? ==>
      r.speed == t.speed && r.eta == (if EtaSeconds(line).Some? then EtaSeconds(line) else t.eta)
    ensures Percent(line).Some? && SpeedValue(line).Some? && SpeedValue(line).value.None? ==>
      r.speed == t.speed && r.eta == t.eta
    ensures Percent(line).Some? && SpeedValue(line).Some? && SpeedValue(line).value.Some? ==>
      r.speed == SpeedValue(line).value && r.eta == (if EtaSeconds(line).Some? then EtaSeconds(line) else t.eta)
    ensures r.progress == t.progress || 0.0 <= r.progress <= 1.0
  {
    match Percent(line)
    case None => t
    case Some(pct) => SpeedAndEta(t.(progress := Clamp(pct / 100.0)), line)
  }

  /** The rest of that block once the progress is stored: the speed when
      there is a match, then the ETA; a speed number that does not parse
      abandons both. */
  function SpeedAndEta(t: Task, line: string): (r: Task)
    ensures r == t.(speed := r.speed, eta := r.eta)
    ensures SpeedValue(line).None? ==>
      r.speed == t.speed && r.eta == (if EtaSeconds(line).Some? then EtaSeconds(line) else t.eta)
    ensures SpeedValue(line).Some? && SpeedValue(line).value.None? ==> r == t
    ensures SpeedValue(line).Some? && SpeedValue(line).value.Some? ==>
      r.speed == SpeedValue(line).value && r.eta == (if EtaSeconds(line).Some? then EtaSeconds(line) else t.eta)
  {
    var sv := SpeedValue(line);
    if sv.None? then WithEta(t, line)
    else if sv.value.None? then t
    else WithEta(t.(speed := sv.value), line)
  }

  /** Record the file yt-dlp reports, as its base name, and its public url. */
  function WithFile(t: Task, path: string): (r: Task)
    ensures r == t.(filename := r.filename, downloadUrl := r.downloadUrl)
    ensures r.filename == Some(Basename(path))
    ensures r.downloadUrl == Some(DownloadsPrefix + Basename(path))
  {
    var name := Basename(path);
    t.(filename := Some(name), downloadUrl := Some(DownloadsPrefix + name))
  }

  /** The file path after `Destination:`: the text after the marker,
      stripped of blanks, with the runs of `"` at both of its ends removed. */
  function DestinationPath(line: string): (r: string)
    requires Contains(line, DestinationMarker)
    ensures r == [] || (r[0] != '"' && r[|r| - 1] != '"')
    ensures exists a: nat :: TrimmedOf(Strip(AfterFirst(line, DestinationMarker)), r, '"', a)
  {
    StripChar(Strip(AfterFirst(line, DestinationMarker)), '"')
  }

  /** The file path after `Merging formats into "`, without trailing quotes. */
  function MergePath(line: string): (r: string)
    requires Contains(line, MergeMarker)
    ensures StartsWith(AfterFirst(line, MergeMarker), r)
    ensures r == [] || r[|r| - 1] != '"'
    ensures forall i :: |r| <= i < |AfterFirst(line, MergeMarker)| ==> AfterFirst(line, MergeMarker)[i] == '"'
  {
    RStripChar(AfterFirst(line, MergeMarker), '"')
  }

  predicate IsProgressLine(line: string)
  {
    StartsWith(line, ProgressMarker) && Contains(line, "%")
  }

  /** A progress line is one that starts with `[download]` and has a `%`
      somewhere. */
  lemma ProgressLineTest(line: string)
    ensures IsProgressLine(line) <==> StartsWith(line, ProgressMarker) && '%' in line
  {
    ContainsChar(line, '%');
  }

  predicate NamesFile(line: string)
  {
    Contains(line, DestinationMarker) || Contains(line, MergeMarker)
  }

  /** Everything one stripped output line changes in the task, before the
      control check. */
  function ApplyLine(t: Task, raw: string): (r: Task)
    ensures r == t.(progress := r.progress, speed := r.speed, eta := r.eta,
                    filename := r.filename, downloadUrl := r.downloadUrl)
    ensures !IsProgressLine(Strip(raw)) ==> r.progress == t.progress && r.speed == t.speed && r.eta == t.eta
    ensures IsProgressLine(Strip(raw)) ==> 0.0 <= r.progress <= 1.0 || r.progress == t.progress
    ensures IsProgressLine(Strip(raw)) ==>
      && r.progress == ProgressUpdate(t, Strip(raw)).progress
      && r.speed == ProgressUpdate(t, Strip(raw)).speed
      && r.eta == ProgressUpdate(t, Strip(raw)).eta
    ensures NamesFile(Strip(raw)) ==>
      r.filename.Some? && '/' !in r.filename.value && r.downloadUrl == Some(DownloadsPrefix + r.filename.value)
    ensures Contains(Strip(raw), MergeMarker) ==> r.filename == Some(Basename(MergePath(Strip(raw))))
    ensures Contains(Strip(raw), DestinationMarker) && !Contains(Strip(raw), MergeMarker) ==>
      r.filename == Some(Basename(DestinationPath(Strip(raw))))
    ensures !NamesFile(Strip(raw)) ==> r.filename == t.filename && r.downloadUrl == t.downloadUrl
    ensures Sound(t) ==> Sound(r)
  {
    var line := Strip(raw);
    var t1 := if IsProgressLine(line) then ProgressUpdate(t, line) else t;
    var t2 := if Contains(line, DestinationMarker) then WithFile(t1, DestinationPath(line)) else t1;
    if Contains(line, MergeMarker) then WithFile(t2, MergePath(line)) else t2
  }

  /** A path with no blank at either end and no `"` anywhere. */
  predicate PlainPath(path: string)
  {
    path != [] && !IsSpace(path[0]) && !IsSpace(path[|path| - 1]) && '"' !in path
  }

  /** The line yt-dlp prints when it starts writing `path`. */
  function DestinationLine(path: string): string
  {
    "[download] Destination: " + path
  }

  /** The line yt-dlp prints when it merges the formats into `path`. */
  function MergeLine(path: string): string
  {
    "[Merger] Merging formats into \"" + path + "\""
  }

  /** The destination marker first occurs right after `[download] `. */
  lemma DestinationMarkerFound(path: string)
    ensures var line := DestinationLine(path);
      Contains(line, DestinationMarker) && AfterFirst(line, DestinationMarker) == " " + path
  {
    var line := DestinationLine(path);
    var head := "[download] ";
    assert line == head + DestinationMarker + (" " + path);
    forall j | 0 <= j < |head| ensures !OccursAt(line, DestinationMarker, j) {
      assert line[j] == head[j];
      MismatchAt(line, DestinationMarker, j, 0);
    }
    AfterHead(head, DestinationMarker, " " + path);
  }

  /** No `"` occurs in a destination line whose path has none. */
  lemma DestinationHeadUnquoted(path: string)
    requires '"' !in path
    ensures '"' !in DestinationLine(path)
  {
    var head := "[download] Destination: ";
    forall i | 0 <= i < |head| ensures head[i] != '"' {
    }
  }

  /** A plain path after one blank is read back as itself. */
  lemma PathAfterBlank(path: string)
    requires PlainPath(path)
    ensures StripChar(Strip(" " + path), '"') == path
  {
    var after := " " + path;
    assert Strip(after) == path by {
      assert after[1..] == path;
      assert LStrip(after) == path;
    }
    assert StripChar(path, '"') == path by {
      assert path[0] != '"' && path[|path| - 1] != '"';
      assert LStripChar(path, '"') == path;
    }
  }

  /** The destination line is stripped already, names `path` after its
      marker, and has no merge marker. */
  lemma DestinationLineShape(path: string)
    requires PlainPath(path)
    ensures var line := DestinationLine(path);
      && Strip(line) == line && Contains(line, DestinationMarker) && !Contains(line, MergeMarker)
      && DestinationPath(line) == path
  {
    var line := DestinationLine(path);
    assert Strip(line) == line by {
      assert line[|line| - 1] == path[|path| - 1];
      StripUnblank(line);
    }
    DestinationMarkerFound(path);
    PathAfterBlank(path);
    DestinationHeadUnquoted(path);
    AbsentChar(line, MergeMarker, |MergeMarker| - 1);
  }

  /** The merge marker first occurs right after `[Merger] `. */
  lemma MergeMarkerFound(path: string)
    ensures var line := MergeLine(path);
      Contains(line, MergeMarker) && AfterFirst(line, MergeMarker) == path + "\""
  {
    var line := MergeLine(path);
    var head := "[Merger] ";
    assert line == head + MergeMarker + (path + "\"");
    forall j | 0 <= j < |head| ensures !OccursAt(line, MergeMarker, j) {
      assert line[j] == head[j];
      if j == 1 {
        assert line[5] == 'e';
        MismatchAt(line, MergeMarker, 1, 4);
      } else {
        MismatchAt(line, MergeMarker, j, 0);
      }
    }
    AfterHead(head, MergeMarker, path + "\"");
  }

  /** The merge line is stripped already and names `path` after its marker. */
  lemma MergeLineShape(path: string)
    requires PlainPath(path)
    ensures var line := MergeLine(path);
      Strip(line) == line && Contains(line, MergeMarker) && MergePath(line) == path
  {
    var line := MergeLine(path);
    assert Strip(line) == line by {
      StripUnblank(line);
    }
    MergePathOfLine(path);
  }

  /** The merge path of the merge line is `path`: only the closing `"` is
      dropped. */
  lemma MergePathOfLine(path: string)
    requires PlainPath(path)
    ensures Contains(MergeLine(path), MergeMarker) && MergePath(MergeLine(path)) == path
  {
    MergeMarkerFound(path);
    var after := path + "\"";
    assert after[..|after| - 1] == path;
    assert path[|path| - 1] != '"';
  }

  /** A destination line names the file `path`: its base name is stored
      with the matching url. */
  lemma DestinationLineNamesFile(t: Task, path: string)
    requires PlainPath(path)
    ensures var r := ApplyLine(t, DestinationLine(path));
      r.filename == Some(Basename(path)) && r.downloadUrl == Some(DownloadsPrefix + Basename(path))
  {
    DestinationLineShape(path);
  }

  /** A merge line names the file `path`: its base name is stored with the
      matching url. */
  lemma MergeLineNamesFile(t: Task, path: string)
    requires PlainPath(path)
    ensures var r := ApplyLine(t, MergeLine(path));
      r.filename == Some(Basename(path)) && r.downloadUrl == Some(DownloadsPrefix + Basename(path))
  {
    MergeLineShape(path);
  }

  /** No speed match starts at `j` in a line without a `B`. */
  lemma NoSpeedAt(line: string, j: nat)
    requires 'B' !in line && j <= |line|
    ensures SpeedAt(line, j).None?
  {
    var k := RunEnd(line, RunEnd(line, j, NumOrDot), Space);
    AbsentCharAt(line, "KiB/s", k, 2);
    AbsentCharAt(line, "MiB/s", k, 2);
    AbsentCharAt(line, "GiB/s", k, 2);
  }

  /** Every speed unit ends in `B/s`, so a line without a `B` reports no speed. */
  lemma NoSpeedWithoutB(line: string)
    requires 'B' !in line
    ensures SpeedSearch(line).None?
  {
    forall j | 0 <= j < |line| ensures SpeedAt(line, j).None? {
      NoSpeedAt(line, j);
    }
    SpeedSearchLeftmost(line);
  }

  /** The units the speed pattern knows. */
  predicate SpeedUnit(u: string)
  {
    u == "KiB" || u == "MiB" || u == "GiB"
  }

  /** The number and the blanks before the unit, as the pattern reads them:
      a run of digits and dots, then any blanks. */
  predicate SpeedWords(n: string, sp: string)
  {
    DecimalWord(n) && forall i :: 0 <= i < |sp| ==> IsSpace(sp[i])
  }

  /** The three texts `<unit>/s` the pattern accepts after the number. */
  predicate UnitWord(w: string)
  {
    w == "KiB/s" || w == "MiB/s" || w == "GiB/s"
  }

  /** The characters of a unit text: none is a digit or a dot, the first is
      no blank, the fourth is `/`. */
  lemma UnitWordChars(w: string)
    requires UnitWord(w)
    ensures |w| == 5 && w[3] == '/' && !IsSpace(w[0])
    ensures forall i :: 0 <= i < 5 ==> !InClass(w[i], NumOrDot)
  {
  }

  /** A unit followed by `/s` is a unit text that names that unit. */
  lemma UnitText(u: string)
    requires SpeedUnit(u)
    ensures UnitWord(u + "/s") && (u + "/s")[..3] == u
  {
    var w := u + "/s";
    assert w[..3] == u;
  }

  /** The speed pattern at `i`, where `<n><sp><unit>/s` is written, reads
      `n` and the unit. */
  lemma SpeedAtWords(line: string, i: nat, n: string, sp: string, w: string)
    requires SpeedWords(n, sp) && UnitWord(w)
    requires OccursAt(line, n, i) && OccursAt(line, sp, i + |n|) && OccursAt(line, w, i + |n| + |sp|)
    ensures SpeedAt(line, i) == Some((n, w[..3]))
  {
    var k := i + |n| + |sp|;
    UnitWordChars(w);
    OccursAtChar(line, w, k, 0);
    SpeedRuns(line, i, n, sp);
    UnitAt(line, k, w);
    SpeedAtEnds(line, i, i + |n|, k);
  }

  /** Once the two runs are known to end at `j` and `k`, the speed pattern
      at `i` depends only on the unit text at `k`. */
  lemma SpeedAtEnds(line: string, i: nat, j: nat, k: nat)
    requires i < j <= k <= |line|
    requires RunEnd(line, i, NumOrDot) == j && RunEnd(line, j, Space) == k
    ensures OccursAt(line, "KiB/s", k) ==> SpeedAt(line, i) == Some((line[i..j], "KiB"))
    ensures !OccursAt(line, "KiB/s", k) && OccursAt(line, "MiB/s", k) ==> SpeedAt(line, i) == Some((line[i..j], "MiB"))
    ensures !OccursAt(line, "KiB/s", k) && !OccursAt(line, "MiB/s", k) && OccursAt(line, "GiB/s", k) ==>
              SpeedAt(line, i) == Some((line[i..j], "GiB"))
  {
  }

  /** At `i`, the digit-and-dot run is `n` and the blank run after it is
      `sp`, when a character that is neither ends them. */
  lemma SpeedRuns(line: string, i: nat, n: string, sp: string)
    requires SpeedWords(n, sp)
    requires OccursAt(line, n, i) && OccursAt(line, sp, i + |n|) && i + |n| + |sp| < |line|
    requires !InClass(line[i + |n| + |sp|], NumOrDot) && !IsSpace(line[i + |n| + |sp|])
    ensures RunEnd(line, i, NumOrDot) == i + |n|
    ensures RunEnd(line, i + |n|, Space) == i + |n| + |sp|
  {
    var j, k := i + |n|, i + |n| + |sp|;
    forall m | i <= m < j ensures InClass(line[m], NumOrDot) {
      OccursAtChar(line, n, i, m - i);
    }
    RunEndAt(line, i, j, NumOrDot);
    forall m | j <= m < k ensures InClass(line[m], Space) {
      OccursAtChar(line, sp, j, m - j);
    }
    RunEndAt(line, j, k, Space);
  }

  /** Where a unit text occurs, the pattern's unit test picks that unit. */
  lemma UnitAt(line: string, k: nat, w: string)
    requires UnitWord(w) && OccursAt(line, w, k)
    ensures OccursAt(line, "KiB/s", k) <==> w == "KiB/s"
    ensures OccursAt(line, "MiB/s", k) <==> w == "MiB/s"
    ensures OccursAt(line, "GiB/s", k) <==> w == "GiB/s"
    ensures w[..3] == (if w == "KiB/s" then "KiB" else if w == "MiB/s" then "MiB" else "GiB")
  {
  }

  /** The unit text cannot start at `k <= |x|` when `x` holds no `/` and a
      digit or a dot follows `x`. */
  lemma NoUnitBefore(line: string, x: string, k: nat, w: string)
    requires UnitWord(w) && k <= |x| < |line| && line[..|x|] == x
    requires '/' !in x && InClass(line[|x|], NumOrDot)
    ensures !OccursAt(line, w, k)
  {
    UnitWordChars(w);
    if k + 5 <= |x| {
      assert line[k + 3] == x[k + 3];
      MismatchAt(line, w, k, 3);
    } else {
      MismatchAt(line, w, k, |x| - k);
    }
  }

  /** No speed match starts inside a head `x` that holds no `/` and does
      not end in a digit or a dot, when a digit or a dot follows it. */
  lemma NoSpeedInHead(line: string, x: string, q: nat)
    requires q < |x| < |line| && line[..|x|] == x
    requires '/' !in x && !InClass(x[|x| - 1], NumOrDot) && InClass(line[|x|], NumOrDot)
    ensures SpeedAt(line, q).None?
  {
    var j := RunEnd(line, q, NumOrDot);
    if j != q {
      assert line[|x| - 1] == x[|x| - 1];
      assert j < |x|;
      var k := RunEnd(line, j, Space);
      assert !InClass(line[|x|], Space);
      assert k <= |x|;
      NoUnitBefore(line, x, k, "KiB/s");
      NoUnitBefore(line, x, k, "MiB/s");
      NoUnitBefore(line, x, k, "GiB/s");
    }
  }

  /** The speed of a line is the first `<n><blanks><unit>/s` in it: when the
      text before it holds no `/` and does not end in a digit or a dot, the
      search finds exactly that number and unit. */
  lemma SpeedAfterText(x: string, n: string, sp: string, u: string, tail: string)
    requires SpeedWords(n, sp) && SpeedUnit(u)
    requires '/' !in x && (x == [] || !InClass(x[|x| - 1], NumOrDot))
    ensures SpeedSearch(x + n + sp + u + "/s" + tail) == Some((n, u))
  {
    var line := x + n + sp + u + "/s" + tail;
    var w := u + "/s";
    UnitText(u);
    SpeedLayout(x, n, sp, w, tail);
    SpeedAtWords(line, |x|, n, sp, w);
    NoSpeedBefore(line, x);
    SpeedSearchAt(line, |x|);
  }

  /** No speed match starts inside such an `x` at the front of the line. */
  lemma NoSpeedBefore(line: string, x: string)
    requires |x| < |line| && line[..|x|] == x && InClass(line[|x|], NumOrDot)
    requires '/' !in x && (x == [] || !InClass(x[|x| - 1], NumOrDot))
    ensures forall q :: 0 <= q < |x| ==> SpeedAt(line, q).None?
  {
    forall q | 0 <= q < |x| ensures SpeedAt(line, q).None? {
      NoSpeedInHead(line, x, q);
    }
  }

  /** A match at `j` with none before it is what the search finds. */
  lemma SpeedSearchAt(line: string, j: nat)
    requires j < |line| && SpeedAt(line, j).Some?
    requires forall q :: 0 <= q < j ==> SpeedAt(line, q).None?
    ensures SpeedSearch(line) == SpeedAt(line, j)
  {
    SpeedSearchLeftmost(line);
    var k :| 0 <= k < |line| && SpeedAt(line, k) == SpeedSearch(line)
      && forall q :: 0 <= q < k ==> SpeedAt(line, q).None?;
    assert k == j;
  }

  /** Where the parts of `x + n + sp + w + tail` lie. */
  lemma SpeedLayout(x: string, n: string, sp: string, w: string, tail: string)
    requires n != []
    ensures var line := x + n + sp + w + tail;
      && line[..|x|] == x && line[|x|] == n[0]
      && OccursAt(line, n, |x|) && OccursAt(line, sp, |x| + |n|) && OccursAt(line, w, |x| + |n| + |sp|)
  {
    var line := x + n + sp + w + tail;
    assert line[|x|..|x| + |n|] == n;
    assert line[|x| + |n|..|x| + |n| + |sp|] == sp;
    assert line[|x| + |n| + |sp|..|x| + |n| + |sp| + |w|] == w;
  }

  /** The ETA of a line is the first `ETA m:s` in it: when the text before
      it holds no `E`, the search finds exactly that one. */
  lemma EtaAfterText(x: string, m: string, s: string)
    requires IsNumeral(m) && IsNumeral(s) && 'E' !in x
    ensures EtaSearch(x + "ETA " + m + ":" + s) == Some((m, s))
    ensures var e := EtaSeconds(x + "ETA " + m + ":" + s);
      e.Some? && e.value == DigitsValue(m) * 60 + DigitsValue(s)
  {
    var line := x + "ETA " + m + ":" + s;
    EtaOfNumerals(x, m, s);
    forall q | 0 <= q < |x| ensures EtaAt(line, q).None? {
      assert line[q] == x[q];
      if OccursAt(line, "ETA", q) { OccursAtChar(line, "ETA", q, 0); }
    }
    EtaSearchLeftmost(line);
    var j :| 0 <= j < |line| && EtaAt(line, j) == EtaSearch(line)
      && forall q :: 0 <= q < j ==> EtaAt(line, q).None?;
    assert j == |x|;
  }

  /** A percentage word made of digits and dots. */
  predicate DecimalWord(p: string)
  {
    p != [] && forall i :: 0 <= i < |p| ==> IsDigit(p[i]) || p[i] == '.'
  }

  /** The words a progress line is written from: a percentage of digits
      and dots, and the minutes and seconds as numerals. */
  predicate ProgressWords(p: string, m: string, s: string)
  {
    DecimalWord(p) && IsNumeral(m) && IsNumeral(s)
  }

  /** The progress line `[download] <p>% ETA <m>:<s>`. */
  function ProgressText(p: string, m: string, s: string): string
  {
    "[download] " + p + "% ETA " + m + ":" + s
  }

  /** The text of a progress line before its `ETA`. */
  function ProgressHead(p: string): string
  {
    "[download] " + p + "% "
  }

  /** A line `[download] <p>%<rest>` that ends in a non-blank is stripped
      already, starts with the marker, and its text before the first `%` is
      `[download] <p>`. */
  lemma ProgressLineShape(p: string, rest: string)
    requires DecimalWord(p) && rest != [] && !IsSpace(rest[|rest| - 1])
    ensures var line := "[download] " + p + "%" + rest;
      && Strip(line) == line && StartsWith(line, ProgressMarker)
      && Contains(line, "%") && BeforeFirst(line, "%") == "[download] " + p
  {
    var head := "[download] ";
    var pre := head + p;
    var line := head + p + "%" + rest;
    var more := "%" + rest;
    assert line == pre + more;
    assert Strip(line) == line by {
      assert line[|line| - 1] == rest[|rest| - 1];
      StripUnblank(line);
    }
    assert StartsWith(line, ProgressMarker) by {
      assert line[..10] == pre[..10] == ProgressMarker;
    }
    forall i | 0 <= i < |pre| ensures pre[i] != '%' {
      if i < |head| { assert pre[i] == head[i]; } else { assert pre[i] == p[i - |head|]; }
    }
    BeforeFirstChar(pre, more, '%');
  }

  /** Such a line is stripped already, is a progress line, and its
      percentage is `p` read as a decimal. */
  lemma ProgressLinePercent(p: string, rest: string)
    requires DecimalWord(p) && rest != [] && !IsSpace(rest[|rest| - 1])
    ensures var line := "[download] " + p + "%" + rest;
      Strip(line) == line && IsProgressLine(line) && Percent(line) == ParseDecimal(p)
  {
    var line := "[download] " + p + "%" + rest;
    ProgressLineShape(p, rest);
    LastWordAfterBlank("[download] ", p);
    assert PercentWord(line) == Some(p);
    assert p[0] != '-' && p[0] != '+';
  }

  /** The letters of the progress line: no `B`, `D` or `M` anywhere, and no
      `E` before the ETA. */
  lemma ProgressLineLetters(p: string, m: string, s: string)
    requires DecimalWord(p) && IsNumeral(m) && IsNumeral(s)
    ensures 'B' !in ProgressText(p, m, s) && 'D' !in ProgressText(p, m, s) && 'M' !in ProgressText(p, m, s)
    ensures 'E' !in ProgressHead(p)
    ensures ProgressText(p, m, s) == ProgressHead(p) + "ETA " + m + ":" + s
  {
    var head := "[download] ";
    var x := ProgressHead(p);
    forall i | 0 <= i < |x| ensures x[i] != 'B' && x[i] != 'D' && x[i] != 'M' && x[i] != 'E' {
      if i < |head| { assert x[i] == head[i]; }
      else if i < |head| + |p| { assert x[i] == p[i - |head|]; }
      else { assert x[i] == "% "[i - |head| - |p|]; }
    }
    var tail := "ETA " + m + ":" + s;
    forall i | 0 <= i < |tail| ensures tail[i] != 'B' && tail[i] != 'D' && tail[i] != 'M' {
      if i < 4 { assert tail[i] == "ETA "[i]; }
      else if i < 4 + |m| { assert tail[i] == m[i - 4]; }
      else if i == 4 + |m| { assert tail[i] == ':'; }
      else { assert tail[i] == s[i - 5 - |m|]; }
    }
    assert ProgressText(p, m, s) == x + tail;
  }

  /** `r` is `t` after a quiet progress line that reported the percentage
      `pct` (None when it does not parse) and the ETA `eta` in seconds: a
      parsed percentage stores the clamped fraction and the ETA, an
      unparsed one abandons the `try` block, and the speed, file name and
      url never change. */
  predicate ReadsAs(t: Task, r: Task, pct: Option<real>, eta: nat)
  {
    && (pct.Some? ==> r.progress == Clamp(pct.value / 100.0) && r.eta.Some? && r.eta.value == eta)
    && (pct.None? ==> r.progress == t.progress && r.eta == t.eta)
    && r.speed == t.speed
    && r.filename == t.filename && r.downloadUrl == t.downloadUrl
  }

  /** The progress line `[download] <p>% ETA <m>:<s>`, where `p` is made of
      digits and dots and `m`, `s` are numerals, reads as the percentage `p`
      and the ETA m*60+s. */
  lemma ProgressLineRead(t: Task, p: string, m: string, s: string)
    requires ProgressWords(p, m, s)
    ensures ReadsAs(t, ApplyLine(t, ProgressText(p, m, s)), ParseDecimal(p), DigitsValue(m) * 60 + DigitsValue(s))
  {
    var line := ProgressText(p, m, s);
    assert Strip(line) == line && IsProgressLine(line) && Percent(line) == ParseDecimal(p) by {
      var rest := " ETA " + m + ":" + s;
      assert rest[|rest| - 1] == s[|s| - 1];
      assert line == "[download] " + p + "%" + rest;
      ProgressLinePercent(p, rest);
    }
    assert && SpeedSearch(line).None?
           && !Contains(line, DestinationMarker) && !Contains(line, MergeMarker)
           && EtaSeconds(line).Some? && EtaSeconds(line).value == DigitsValue(m) * 60 + DigitsValue(s) by {
      ProgressLineLetters(p, m, s);
      NoSpeedWithoutB(line);
      EtaAfterText(ProgressHead(p), m, s);
      AbsentChar(line, DestinationMarker, 0);
      AbsentChar(line, MergeMarker, 0);
    }
    QuietProgressLine(t, line);
  }

  /** A stripped progress line that reports no speed and names no file
      changes only the progress and the ETA, as its percentage and ETA say. */
  lemma QuietProgressLine(t: Task, line: string)
    requires Strip(line) == line && IsProgressLine(line)
    requires SpeedSearch(line).None? && !Contains(line, DestinationMarker) && !Contains(line, MergeMarker)
    requires EtaSeconds(line).Some?
    ensures ReadsAs(t, ApplyLine(t, line), Percent(line), EtaSeconds(line).value)
  {
    assert SpeedValue(line).None?;
  }

  /** The size yt-dlp prints between `of` and `at` (such as `10.00MiB`):
      no `/`, `E`, `D` or `"` in it. */
  predicate SizeWord(size: string)
  {
    '/' !in size && 'E' !in size && 'D' !in size && '"' !in size
  }

  /** The progress line with a speed,
      `[download] <p>% of <size> at <n><u>/s ETA <m>:<s>`. */
  function SpeedLine(p: string, size: string, n: string, u: string, m: string, s: string): string
  {
    SpeedHead(p, size) + n + u + "/s ETA " + m + ":" + s
  }

  /** The text of that line before its speed number. */
  function SpeedHead(p: string, size: string): string
  {
    "[download] " + p + "% of " + size + " at "
  }

  /** No character of `w` is in `cs`. */
  predicate Avoids(w: string, cs: set<char>)
  {
    forall i :: 0 <= i < |w| ==> w[i] !in cs
  }

  lemma AvoidsAppend(a: string, b: string, cs: set<char>)
    requires Avoids(a, cs) && Avoids(b, cs)
    ensures Avoids(a + b, cs)
  {
    forall i | 0 <= i < |a + b| ensures (a + b)[i] !in cs {
      if i < |a| { assert (a + b)[i] == a[i]; } else { assert (a + b)[i] == b[i - |a|]; }
    }
  }

  /** The letters the markers and patterns look for. */
  function Looked(): set<char>
  {
    {'/', 'E', 'D', '"'}
  }

  /** Digits and dots hold none of those letters. */
  lemma NumberLetters(w: string)
    requires forall i :: 0 <= i < |w| ==> IsDigit(w[i]) || w[i] == '.'
    ensures Avoids(w, Looked())
  {
  }

  /** The letters of the speed line: no `/` before the speed, no `E`
      before the ETA, and no `D` or `"` anywhere. */
  lemma SpeedLineLetters(p: string, size: string, n: string, u: string, m: string, s: string)
    requires DecimalWord(p) && SizeWord(size) && DecimalWord(n) && SpeedUnit(u) && IsNumeral(m) && IsNumeral(s)
    ensures '/' !in SpeedHead(p, size)
    ensures 'E' !in SpeedHead(p, size) + n + u + "/s "
    ensures 'D' !in SpeedLine(p, size, n, u, m, s) && '"' !in SpeedLine(p, size, n, u, m, s)
  {
    var x := SpeedHead(p, size);
    SpeedHeadLetters(p, size);
    NumberLetters(n);
    UpToEtaLetters(x, n, u);
    NumberLetters(m);
    NumberLetters(s);
    EtaLetters(x + n + u + "/s ", m, s);
    assert SpeedLine(p, size, n, u, m, s) == x + n + u + "/s " + "ETA " + m + ":" + s;
  }

  lemma SpeedHeadLetters(p: string, size: string)
    requires DecimalWord(p) && SizeWord(size)
    ensures Avoids(SpeedHead(p, size), Looked())
  {
    var all := Looked();
    NumberLetters(p);
    assert Avoids("[download] ", all) && Avoids("% of ", all) && Avoids(" at ", all);
    assert Avoids(size, all);
    AvoidsAppend("[download] ", p, all);
    AvoidsAppend("[download] " + p, "% of ", all);
    AvoidsAppend("[download] " + p + "% of ", size, all);
    AvoidsAppend("[download] " + p + "% of " + size, " at ", all);
  }

  lemma UpToEtaLetters(x: string, n: string, u: string)
    requires Avoids(x, Looked()) && Avoids(n, Looked()) && SpeedUnit(u)
    ensures 'E' !in x + n + u + "/s " && Avoids(x + n + u + "/s ", {'D', '"'})
  {
    var noE := {'E', 'D', '"'};
    assert Avoids(x, noE) && Avoids(n, noE) && Avoids(u + "/s ", noE);
    AvoidsAppend(x, n, noE);
    AvoidsAppend(x + n, u + "/s ", noE);
  }

  lemma EtaLetters(y: string, m: string, s: string)
    requires Avoids(y, {'D', '"'}) && Avoids(m, Looked()) && Avoids(s, Looked())
    ensures 'D' !in y + "ETA " + m + ":" + s && '"' !in y + "ETA " + m + ":" + s
  {
    var few := {'D', '"'};
    assert Avoids("ETA ", few) && Avoids(m, few) && Avoids(":", few) && Avoids(s, few);
    AvoidsAppend(y, "ETA ", few);
    AvoidsAppend(y + "ETA ", m, few);
    AvoidsAppend(y + "ETA " + m, ":", few);
    AvoidsAppend(y + "ETA " + m + ":", s, few);
  }

  /** `r` is `t` after a progress line that reported the percentage `pct`,
      the speed number `v` in units of `unit`, and the ETA `eta` in
      seconds (None where the number does not parse): an unparsed
      percentage abandons the `try` block, an unparsed speed abandons it
      after the progress, otherwise progress, speed and ETA are stored; the
      file name and url never change. */
  predicate ReadsWithSpeed(t: Task, r: Task, pct: Option<real>, v: Option<real>, unit: string, eta: nat)
  {
    && (pct.None? ==> r.progress == t.progress && r.speed == t.speed && r.eta == t.eta)
    && (pct.Some? ==> r.progress == Clamp(pct.value / 100.0))
    && (pct.Some? && v.None? ==> r.speed == t.speed && r.eta == t.eta)
    && (pct.Some? && v.Some? ==> r.speed == Some(InBytes(v.value, unit)) && r.eta == Some(eta))
    && r.filename == t.filename && r.downloadUrl == t.downloadUrl
  }

  /** The progress line `[download] <p>% of <size> at <n><u>/s ETA <m>:<s>`,
      with `p` and `n` of digits and dots, `u` one of the three units and
      `m`, `s` numerals, reads as the percentage `p`, the speed `n` times
      the unit's size and the ETA m*60+s. */
  lemma SpeedLineRead(t: Task, p: string, size: string, n: string, u: string, m: string, s: string)
    requires DecimalWord(p) && SizeWord(size) && DecimalWord(n) && SpeedUnit(u) && IsNumeral(m) && IsNumeral(s)
    ensures ReadsWithSpeed(t, ApplyLine(t, SpeedLine(p, size, n, u, m, s)),
                           ParseDecimal(p), ParseDecimal(n), u, DigitsValue(m) * 60 + DigitsValue(s))
  {
    var line := SpeedLine(p, size, n, u, m, s);
    SpeedLineLetters(p, size, n, u, m, s);
    SpeedLinePercent(p, size, n, u, m, s);
    SpeedLineSpeed(p, size, n, u, m, s);
    SpeedLineEta(p, size, n, u, m, s);
    AbsentChar(line, DestinationMarker, 0);
    AbsentChar(line, MergeMarker, |MergeMarker| - 1);
    SpeedProgressLine(t, line, ParseDecimal(p), n, u, DigitsValue(m) * 60 + DigitsValue(s));
  }

  /** The speed line is stripped already, is a progress line, and its
      percentage is `p` read as a decimal. */
  lemma SpeedLinePercent(p: string, size: string, n: string, u: string, m: string, s: string)
    requires DecimalWord(p) && IsNumeral(s)
    ensures var line := SpeedLine(p, size, n, u, m, s);
      Strip(line) == line && IsProgressLine(line) && Percent(line) == ParseDecimal(p)
  {
    var rest := " of " + size + " at " + n + u + "/s ETA " + m + ":" + s;
    assert rest[|rest| - 1] == s[|s| - 1];
    assert SpeedLine(p, size, n, u, m, s) == "[download] " + p + "%" + rest;
    ProgressLinePercent(p, rest);
  }

  /** The speed search on the speed line finds `n` and `u`. */
  lemma SpeedLineSpeed(p: string, size: string, n: string, u: string, m: string, s: string)
    requires DecimalWord(n) && SpeedUnit(u) && '/' !in SpeedHead(p, size)
    ensures SpeedSearch(SpeedLine(p, size, n, u, m, s)) == Some((n, u))
  {
    var x := SpeedHead(p, size);
    var tail := " ETA " + m + ":" + s;
    assert x[|x| - 1] == ' ';
    assert SpeedLine(p, size, n, u, m, s) == x + n + "" + u + "/s" + tail;
    SpeedAfterText(x, n, "", u, tail);
  }

  /** The ETA of the speed line is m*60+s. */
  lemma SpeedLineEta(p: string, size: string, n: string, u: string, m: string, s: string)
    requires IsNumeral(m) && IsNumeral(s) && 'E' !in SpeedHead(p, size) + n + u + "/s "
    ensures var e := EtaSeconds(SpeedLine(p, size, n, u, m, s));
      e.Some? && e.value == DigitsValue(m) * 60 + DigitsValue(s)
  {
    var y := SpeedHead(p, size) + n + u + "/s ";
    assert SpeedLine(p, size, n, u, m, s) == y + "ETA " + m + ":" + s;
    EtaAfterText(y, m, s);
  }

  /** A stripped progress line whose speed match is `n` and `u` and that
      names no file changes only the progress, the speed and the ETA, as its
      percentage, its speed number and unit, and its ETA say. */
  lemma SpeedProgressLine(t: Task, line: string, pct: Option<real>, n: string, u: string, eta: nat)
    requires Strip(line) == line && IsProgressLine(line) && Percent(line) == pct
    requires SpeedSearch(line) == Some((n, u)) && !Contains(line, DestinationMarker) && !Contains(line, MergeMarker)
    requires EtaSeconds(line).Some? && EtaSeconds(line).value == eta
    ensures ReadsWithSpeed(t, ApplyLine(t, line), pct, ParseDecimal(n), u, eta)
  {
    ProgressOnlyLine(t, line);
    SpeedValueOf(line, n, u);
    SpeedUpdate(t, line, pct, ParseDecimal(n), u, eta);
  }

  /** A stripped progress line that names no file is read by the progress
      block alone. */
  lemma ProgressOnlyLine(t: Task, line: string)
    requires Strip(line) == line && IsProgressLine(line)
    requires !Contains(line, DestinationMarker) && !Contains(line, MergeMarker)
    ensures ApplyLine(t, line) == ProgressUpdate(t, line)
  {
  }

  /** The progress block on a line whose percentage is `pct` and whose
      speed number `v` (None when it does not parse) is in units of `u`. */
  lemma SpeedUpdate(t: Task, line: string, pct: Option<real>, v: Option<real>, u: string, eta: nat)
    requires Percent(line) == pct
    requires v.None? ==> SpeedValue(line) == Some(None)
    requires v.Some? ==> SpeedValue(line) == Some(Some(InBytes(v.value, u)))
    requires EtaSeconds(line).Some? && EtaSeconds(line).value == eta
    ensures ReadsWithSpeed(t, ProgressUpdate(t, line), pct, v, u, eta)
  {
    match pct
    case None =>
      assert ProgressUpdate(t, line) == t;
    case Some(q) =>
      match v
      case None =>
        PercentNoSpeed(t, line, q);
        StoredWithoutSpeed(t, ProgressUpdate(t, line), q, u, eta);
      case Some(x) =>
        PercentAndSpeed(t, line, q, InBytes(x, u), eta);
        StoredWithSpeed(t, ProgressUpdate(t, line), q, x, u, eta);
  }

  lemma StoredWithoutSpeed(t: Task, r: Task, q: real, u: string, eta: nat)
    requires r == t.(progress := Clamp(q / 100.0))
    ensures ReadsWithSpeed(t, r, Some(q), None, u, eta)
  {
  }

  lemma StoredWithSpeed(t: Task, r: Task, q: real, x: real, u: string, eta: nat)
    requires r == t.(progress := Clamp(q / 100.0), speed := Some(InBytes(x, u)), eta := Some(eta))
    ensures ReadsWithSpeed(t, r, Some(q), Some(x), u, eta)
  {
  }

  /** The speed of a line whose speed match is `n` and `u`: the failure
      `Some(None)` when `n` does not parse, else `n` in bytes per second. */
  lemma SpeedValueOf(line: string, n: string, u: string)
    requires SpeedSearch(line) == Some((n, u))
    ensures ParseDecimal(n).None? ==> SpeedValue(line) == Some(None)
    ensures ParseDecimal(n).Some? ==> SpeedValue(line) == Some(Some(InBytes(ParseDecimal(n).value, u)))
  {
  }

  /** A parsed percentage `q` and a speed number that does not parse: only
      the progress is stored. */
  lemma PercentNoSpeed(t: Task, line: string, q: real)
    requires Percent(line) == Some(q) && SpeedValue(line) == Some(None)
    ensures ProgressUpdate(t, line) == t.(progress := Clamp(q / 100.0))
  {
  }

  /** A parsed percentage `q` and a parsed speed `b` in bytes per second:
      the progress, the speed and the ETA are stored. */
  lemma PercentAndSpeed(t: Task, line: string, q: real, b: real, eta: nat)
    requires Percent(line) == Some(q) && SpeedValue(line) == Some(Some(b))
    requires EtaSeconds(line).Some? && EtaSeconds(line).value == eta
    ensures ProgressUpdate(t, line) == t.(progress := Clamp(q / 100.0), speed := Some(b), eta := Some(eta))
  {
  }

  /** What yt-dlp prints for whole numbers pc, mm and ss are words a
      progress line is written from, and they read back as those numbers:
      with `ProgressLineRead`, the line stores pc/100 (clamped) and the ETA
      mm*60+ss. */
  lemma NumeralWords(pc: nat, mm: nat, ss: nat)
    ensures ProgressWords(NatToString(pc), NatToString(mm), NatToString(ss))
    ensures ParseDecimal(NatToString(pc)) == Some(pc as real)
    ensures DigitsValue(NatToString(mm)) * 60 + DigitsValue(NatToString(ss)) == mm * 60 + ss
  {
    NatToStringRoundTrip(pc);
    NatToStringRoundTrip(mm);
    NatToStringRoundTrip(ss);
  }

  /** The control check after each line: a pause or cancel request ends the
      run with the matching status. */
  function ControlStop(t: Task): (r: Option<Task>)
    ensures r.None? <==> t.control == NoControl
    ensures t.control == PauseRequested ==> r == Some(t.(status := Paused))
    ensures t.control == CancelRequested ==> r == Some(t.(status := Canceled))
  {
    match t.control
    case PauseRequested => Some(t.(status := Paused))
    case CancelRequested => Some(t.(status := Canceled))
    case NoControl => None
  }

  /** The task after reading `lines`, and whether a control check stopped the run. */
  function Consume(t: Task, lines: seq<string>): (r: (Task, bool))
    ensures r.1 ==> lines != [] && (r.0.status == Paused || r.0.status == Canceled)
    ensures r.0.id == t.id && r.0.url == t.url && r.0.category == t.category && r.0.control == t.control
    decreases |lines|
  {
    if lines == [] then (t, false)
    else
      var t1 := ApplyLine(t, lines[0]);
      match ControlStop(t1)
      case Some(stopped) => (stopped, true)
      case None => Consume(t1, lines[1..])
  }

  /** One line of `Consume`: the run stops on it or goes on with the rest. */
  lemma ConsumeStep(t: Task, lines: seq<string>)
    requires lines != []
    ensures var t1 := ApplyLine(t, lines[0]);
      Consume(t, lines) == if t1.control != NoControl then (ControlStop(t1).value, true) else Consume(t1, lines[1..])
  {
  }

  /** The `for raw_line in process.stdout` loop. */
  method FollowOutput(t: Task, lines: seq<string>) returns (r: Task, stopped: bool)
    ensures (r, stopped) == Consume(t, lines)
  {
    r, stopped := t, false;
    var i := 0;
    while i < |lines|
      invariant 0 <= i <= |lines|
      invariant Consume(t, lines) == Consume(r, lines[i..])
    {
      assert lines[i..][0] == lines[i] && lines[i..][1..] == lines[i + 1..];
      r := ApplyLine(r, lines[i]);
      if r.control == PauseRequested {
        r, stopped := r.(status := Paused), true;
        return;
      }
      if r.control == CancelRequested {
        r, stopped := r.(status := Canceled), true;
        return;
      }
      i := i + 1;
    }
  }

  /** A run stops at the first line exactly when a pause or cancel was
      requested; it then carries the matching status, and otherwise the
      status is untouched. Every other field but the line-derived ones stays. */
  lemma {:induction false} ConsumeOutcome(t: Task, lines: seq<string>)
    ensures var (r, stopped) := Consume(t, lines);
      && (stopped <==> lines != [] && t.control != NoControl)
      && (stopped && t.control == PauseRequested ==> r.status == Paused)
      && (stopped && t.control == CancelRequested ==> r.status == Canceled)
      && (!stopped ==> r.status == t.status)
      && r == t.(status := r.status, progress := r.progress, speed := r.speed, eta := r.eta,
                 filename := r.filename, downloadUrl := r.downloadUrl)
      && (Sound(t) ==> Sound(r))
    decreases |lines|
  {
    if lines != [] {
      var t1 := ApplyLine(t, lines[0]);
      if t1.control == NoControl {
        ConsumeOutcome(t1, lines[1..]);
      }
    }
  }

  // ---- After the output ends ----

  /** `status = "downloading"` and `progress = 0.0` before the subprocess starts. */
  function Begin(t: Task): (r: Task)
    ensures r.status == Downloading && r.progress == 0.0
    ensures r == t.(status := r.status, progress := r.progress)
    ensures Sound(t) ==> Sound(r)
  {
    t.(status := Downloading, progress := 0.0)
  }

  /** The glob fallback, given the matching paths already sorted: the first
      one names the file when no name was captured. */
  function Fallback(t: Task, candidates: seq<string>): (r: Task)
    ensures Known(t.filename) || candidates == [] ==> r == t
    ensures !Known(t.filename) && candidates != [] ==> r == WithFile(t, candidates[0])
    ensures Sound(t) ==> Sound(r)
  {
    if !Known(t.filename) && candidates != [] then WithFile(t, candidates[0]) else t
  }

  /** The final block, with both of its nested checks. */
  function Finalise(t: Task, now: string): (r: Task)
    ensures t.status == Paused || t.status == Canceled ==> r == t
    ensures t.status != Paused && t.status != Canceled && Known(t.filename) ==>
      r == t.(status := Completed, progress := 1.0, downloadedAt := Some(now),
              downloadUrl := Some(DownloadsPrefix + t.filename.value))
    ensures t.status != Paused && t.status != Canceled && !Known(t.filename) ==>
      r == t.(status := Error, progress := 1.0, downloadedAt := Some(now), message := Some(MissingFileMessage))
    ensures !r.status.IsActive()
    ensures Sound(t) ==> Sound(r)
  {
    if t.status == Paused || t.status == Canceled then t
    else
      var t1 := t.(progress := 1.0, status := Completed, downloadedAt := Some(now));
      var t2 := if Known(t1.filename) then t1.(downloadUrl := Some(DownloadsPrefix + t1.filename.value)) else t1;
      if t2.status == Paused || t2.status == Canceled then t2
      else if Known(t2.filename) then
        t2.(progress := 1.0, status := Completed, downloadedAt := Some(now),
            downloadUrl := Some(DownloadsPrefix + t2.filename.value))
      else t2.(status := Error, message := Some(MissingFileMessage))
  }

  /** The state a whole `run_ytdlp` call leaves behind. */
  function RunOutcome(t: Task, spawnError: Option<string>, lines: seq<string>,
                      candidates: seq<string>, now: string): (r: Task)
    ensures !r.status.IsActive()
    ensures r.id == t.id && r.url == t.url && r.category == t.category
  {
    var t0 := Begin(t);
    if spawnError.Some? then t0.(status := Error, message := spawnError)
    else
      var (t1, stopped) := Consume(t0, lines);
      if stopped then t1 else Finalise(Fallback(t1, candidates), now)
  }

  /** The three ways a run ends: the subprocess does not start, a control
      check stops it, or the output ends and the task is settled. */
  lemma RunOutcomeCases(t: Task, spawnError: Option<string>, lines: seq<string>, candidates: seq<string>, now: string)
    ensures spawnError.Some? ==> RunOutcome(t, spawnError, lines, candidates, now) == Begin(t).(status := Error, message := spawnError)
    ensures spawnError.None? && Consume(Begin(t), lines).1 ==> RunOutcome(t, spawnError, lines, candidates, now) == Consume(Begin(t), lines).0
    ensures spawnError.None? && !Consume(Begin(t), lines).1 ==>
      RunOutcome(t, spawnError, lines, candidates, now) == Finalise(Fallback(Consume(Begin(t), lines).0, candidates), now)
  {
  }

  /** `run_ytdlp`: build the command, then follow the output and settle the
      task. `spawnError` is the message of an exception from starting the
      subprocess, `candidates` the sorted glob matches, `now` the clock. */
  method RunYtdlp(t: Task, base: seq<string>, downloadDir: string, spawnError: Option<string>,
                  lines: seq<string>, candidates: seq<string>, now: string)
    returns (cmd: seq<string>, r: Task)
    ensures cmd == Command.CommandFor(base, downloadDir, t)
    ensures r == RunOutcome(t, spawnError, lines, candidates, now)
  {
    cmd := Command.BuildCommand(base, downloadDir, t);
    r := Begin(t);
    if spawnError.Some? {
      r := r.(status := Error, message := spawnError);
      return;
    }
    var stopped;
    r, stopped := FollowOutput(r, lines);
    if stopped {
      return;
    }
    r := Fallback(r, candidates);
    r := Finalise(r, now);
  }

  /** Every run ends settled: paused or canceled exactly when a control
      request stopped it, completed only with a known file, its url and full
      progress, and an error with a message otherwise. Soundness is kept. */
  lemma RunSettles(t: Task, spawnError: Option<string>, lines: seq<string>, candidates: seq<string>, now: string)
    ensures var r := RunOutcome(t, spawnError, lines, candidates, now);
      && r.status in {Paused, Canceled, Completed, Error}
      && (r.status == Paused <==> spawnError.None? && lines != [] && t.control == PauseRequested)
      && (r.status == Canceled <==> spawnError.None? && lines != [] && t.control == CancelRequested)
      && (r.status == Completed ==>
            Known(r.filename) && r.downloadUrl == Some(DownloadsPrefix + r.filename.value) && r.progress == 1.0)
      && (r.status == Error ==> r.message.Some?)
      && (r.status == Error && spawnError.None? ==> r.message == Some(MissingFileMessage) && r.progress == 1.0)
      && (Sound(t) ==> Sound(r))
      && r.id == t.id && r.url == t.url && r.control == t.control
  {
    ConsumeOutcome(Begin(t), lines);
  }
}
