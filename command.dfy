/**
 * The yt-dlp command line `run_ytdlp` builds for a task: the output
 * template from a sanitised title, the optional resolution sort key, and the
 * format selection for audio or video. The resolved yt-dlp executable
 * (`base`) and the download directory are parameters.
 */
module Command {
  import opened Wrappers
  import opened Strings
  import opened Tasks

  const VideoSelector: string := "bv*+ba/best"
  const AudioSelector: string := "bestaudio/best"
  const TemplateSuffix: string := ".%(ext)s"

  /** The audio formats passed on with `--audio-format`. */
  const AudioFormats: set<string> := {"mp3", "m4a", "aac"}

  /** The containers passed on with `--merge-output-format`. */
  const ContainerFormats: set<string> := {"mp4", "mkv", "webm"}

  /** The characters the title pattern replaces: backslash, slash, `*`, `?`,
      `:`, `"`, `<`, `>` and `|`. */
  predicate Forbidden(c: char)
  {
    c == '\\' || c == '/' || c == '*' || c == '?' || c == ':' || c == '"' || c == '<' || c == '>' || c == '|'
  }

  /** The title substitution: every forbidden character becomes `_`. */
  function Sanitize(s: string): (r: string)
    ensures |r| == |s|
    ensures forall i :: 0 <= i < |s| ==> r[i] == (if Forbidden(s[i]) then '_' else s[i])
  {
    if s == [] then [] else [if Forbidden(s[0]) then '_' else s[0]] + Sanitize(s[1..])
  }

  /** The file-name stem: the sanitised title, or the task id when there is no title. */
  function SafeTitle(title: Option<string>, id: string): (r: string)
    ensures !Known(title) ==> r == id
    ensures Known(title) ==> |r| == |title.value|
    ensures Known(title) ==> forall i :: 0 <= i < |r| ==> !Forbidden(r[i])
    ensures Known(title) ==> forall i :: 0 <= i < |r| ==> !Forbidden(title.value[i]) ==> r[i] == title.value[i]
    ensures Known(title) ==> forall i :: 0 <= i < |r| ==> Forbidden(title.value[i]) ==> r[i] == '_'
  {
    if Known(title) then Sanitize(title.value) else id
  }

  /** `os.path.join(a, b)` on POSIX: an absolute `b` replaces `a`. */
  function Join(a: string, b: string): (r: string)
    ensures StartsWith(b, "/") ==> r == b
    ensures !StartsWith(b, "/") ==> EndsWith(r, b) && StartsWith(r, a)
  {
    if StartsWith(b, "/") then b
    else if a == [] || EndsWith(a, "/") then a + b
    else a + "/" + b
  }

  /** The `-o` output template. */
  function OutputTemplate(downloadDir: string, t: Task): (r: string)
    ensures EndsWith(r, SafeTitle(t.title, t.id) + TemplateSuffix)
    ensures !StartsWith(SafeTitle(t.title, t.id), "/") ==> StartsWith(r, downloadDir)
  {
    var stem := SafeTitle(t.title, t.id);
    var name := stem + TemplateSuffix;
    assert !StartsWith(stem, "/") ==> !StartsWith(name, "/") by {
      assert name[..1] == [name[0]];
      if stem != [] {
        assert name[0] == stem[0] && stem[..1] == [stem[0]];
      } else {
        assert name[0] == TemplateSuffix[0];
      }
    }
    Join(downloadDir, name)
  }

  /** A task whose id has no path separator writes directly into the
      download directory, under a name with no path separator: the safe
      title, or the id when there is no title. */
  lemma TemplateInDownloadDir(downloadDir: string, t: Task)
    requires '/' !in t.id
    requires downloadDir != [] && downloadDir[|downloadDir| - 1] != '/'
    ensures OutputTemplate(downloadDir, t) == downloadDir + "/" + SafeTitle(t.title, t.id) + TemplateSuffix
    ensures '/' !in SafeTitle(t.title, t.id)
  {
    var stem := SafeTitle(t.title, t.id);
    assert '/' !in stem by {
      if Known(t.title) {
        forall i | 0 <= i < |stem| ensures stem[i] != '/' {
          assert !Forbidden(stem[i]);
        }
      }
    }
    var name := stem + TemplateSuffix;
    assert !StartsWith(name, "/") by {
      assert name[..1] == [name[0]];
      if stem != [] { assert name[0] == stem[0]; } else { assert name[0] == TemplateSuffix[0]; }
    }
    assert !EndsWith(downloadDir, "/") by {
      assert downloadDir[|downloadDir| - 1..] == [downloadDir[|downloadDir| - 1]];
    }
  }


  /** `int(quality[:-1])` for a quality ending in `p`, when the rest is a
      numeral. */
  function QualityHeight(quality: string): (r: Option<nat>)
    ensures r.Some? <==> EndsWith(quality, "p") && IsNumeral(quality[..|quality| - 1])
    ensures r.Some? ==> r.value == DigitsValue(quality[..|quality| - 1])
  {
    if EndsWith(quality, "p") && IsNumeral(quality[..|quality| - 1])
    then Some(DigitsValue(quality[..|quality| - 1]))
    else None
  }

  /** The `-S res:N` sort key: present exactly for a video task whose quality
      is a numeral followed by `p`, and N reads back as that numeral's value. */
  function SortArgs(category: string, quality: string): (r: seq<string>)
    ensures r != [] <==> category == "video" && QualityHeight(quality).Some?
    ensures r != [] ==> |r| == 2 && r[0] == "-S" && StartsWith(r[1], "res:")
    ensures r != [] ==> IsNumeral(r[1][4..]) && DigitsValue(r[1][4..]) == QualityHeight(quality).value
    ensures r != [] ==> |r[1]| == 5 || r[1][4] != '0'
  {
    match QualityHeight(quality)
    case Some(h) =>
      if category == "video" then
        NatToStringRoundTrip(h);
        var key := "res:" + NatToString(h);
        assert key[..4] == "res:" && key[4..] == NatToString(h);
        ["-S", key]
      else []
    case None => []
  }

  /** The format selection: `-f bestaudio/best -x` and maybe `--audio-format`
      for audio; `-f bv*+ba/best` and maybe `--merge-output-format` for
      every other category. */
  function FormatArgs(category: string, fmt: string): (r: seq<string>)
    ensures |r| >= 2 && r[0] == "-f"
    ensures r[1] == (if category == "audio" then AudioSelector else VideoSelector)
    ensures category == "audio" ==> |r| >= 3 && r[2] == "-x"
    ensures "--audio-format" in r <==> category == "audio" && Lower(fmt) in AudioFormats
    ensures "--merge-output-format" in r <==> category != "audio" && Lower(fmt) in ContainerFormats
    ensures "--audio-format" in r || "--merge-output-format" in r ==> r[|r| - 1] == Lower(fmt)
    ensures "--audio-format" in r ==> r[|r| - 2] == "--audio-format"
    ensures "--merge-output-format" in r ==> r[|r| - 2] == "--merge-output-format"
    ensures |r| == (if category == "audio" then 3 else 2) + (if "--audio-format" in r || "--merge-output-format" in r then 2 else 0)
    ensures "-S" !in r
  {
    var f := Lower(fmt);
    if category == "audio" then
      ["-f", AudioSelector, "-x"] + (if f in AudioFormats then ["--audio-format", f] else [])
    else
      ["-f", VideoSelector] + (if f in ContainerFormats then ["--merge-output-format", f] else [])
  }

  /** The whole word list handed to the subprocess. */
  function CommandFor(base: seq<string>, downloadDir: string, t: Task): (r: seq<string>)
    ensures |base| + 6 <= |r| <= |base| + 10
    ensures r[..|base|] == base && r[|r| - 1] == t.url
  {
    base + ["--newline", "-o", OutputTemplate(downloadDir, t)]
    + SortArgs(t.category, t.quality) + FormatArgs(t.category, t.fmt) + [t.url]
  }

  /** The option words between the fixed prefix and the url. */
  function Options(cmd: seq<string>, base: seq<string>): seq<string>
    requires |cmd| >= |base| + 4
  {
    cmd[|base| + 3..|cmd| - 1]
  }

  /** The command starts with the executable, `--newline` and the output
      template, ends with the url, and carries each optional flag exactly
      when the task asks for it. */
  lemma CommandShape(base: seq<string>, downloadDir: string, t: Task)
    ensures |CommandFor(base, downloadDir, t)| >= |base| + 6
    ensures CommandFor(base, downloadDir, t)[..|base| + 3] == base + ["--newline", "-o", OutputTemplate(downloadDir, t)]
    ensures CommandFor(base, downloadDir, t)[|CommandFor(base, downloadDir, t)| - 1] == t.url
    ensures
      var opts := Options(CommandFor(base, downloadDir, t), base);
      && ("-S" in opts <==> t.category == "video" && QualityHeight(t.quality).Some?)
      && ("--audio-format" in opts <==> t.category == "audio" && Lower(t.fmt) in AudioFormats)
      && ("--merge-output-format" in opts <==> t.category != "audio" && Lower(t.fmt) in ContainerFormats)
  {
    var prefix := base + ["--newline", "-o", OutputTemplate(downloadDir, t)];
    var sort, format := SortArgs(t.category, t.quality), FormatArgs(t.category, t.fmt);
    var cmd := CommandFor(base, downloadDir, t);
    assert cmd == prefix + sort + format + [t.url];
    Layout(prefix, sort, format, t.url);
    OptionWords(sort, format);
  }

  /** The parts of `prefix + sort + format + [url]` are where they were put. */
  lemma Layout(prefix: seq<string>, sort: seq<string>, format: seq<string>, url: string)
    ensures |prefix + sort + format + [url]| == |prefix| + |sort| + |format| + 1
    ensures (prefix + sort + format + [url])[..|prefix|] == prefix
    ensures (prefix + sort + format + [url])[|prefix|..|prefix| + |sort| + |format|] == sort + format
    ensures (prefix + sort + format + [url])[|prefix| + |sort| + |format|] == url
  {
    var s := prefix + sort + format + [url];
    assert s == prefix + (sort + format) + [url];
  }

  /** Between the prefix and the url, `-S` comes only from the sort key and
      the two format flags only from the format selection. */
  lemma OptionWords(sort: seq<string>, format: seq<string>)
    requires sort == [] || (|sort| == 2 && sort[0] == "-S" && StartsWith(sort[1], "res:"))
    requires "-S" !in format
    ensures "-S" in sort + format <==> sort != []
    ensures "--audio-format" in sort + format <==> "--audio-format" in format
    ensures "--merge-output-format" in sort + format <==> "--merge-output-format" in format
  {
    if sort != [] {
      assert sort[1][0] == sort[1][..4][0] == 'r';
    }
  }

  /** The quality block of `run_ytdlp`: append the sort key for a video
      task whose quality names a height. */
  method AddSortKey(cmd0: seq<string>, t: Task) returns (cmd: seq<string>)
    ensures cmd == cmd0 + SortArgs(t.category, t.quality)
  {
    cmd := cmd0;
    var height := QualityHeight(t.quality);
    if t.category == "video" && height.Some? {
      cmd := cmd + ["-S", "res:" + NatToString(height.value)];
    }
  }

  /** The format-selection block of `run_ytdlp`: the selector, `-x` for
      audio, and the format flag when the lower-cased fmt is one the
      category knows. */
  method AddFormat(cmd0: seq<string>, t: Task) returns (cmd: seq<string>)
    ensures cmd == cmd0 + FormatArgs(t.category, t.fmt)
  {
    if t.category == "audio" {
      cmd := cmd0 + ["-f", AudioSelector, "-x"];
      var afmt := Lower(t.fmt);
      if afmt in AudioFormats {
        cmd := cmd + ["--audio-format", afmt];
      }
    } else {
      cmd := cmd0 + ["-f", VideoSelector];
      var vfmt := Lower(t.fmt);
      if vfmt in ContainerFormats {
        cmd := cmd + ["--merge-output-format", vfmt];
      }
    }
  }

  /** The command construction of `run_ytdlp`: the fixed prefix, then each
      optional part appended in turn. */
  method BuildCommand(base: seq<string>, downloadDir: string, t: Task) returns (cmd: seq<string>)
    ensures cmd == CommandFor(base, downloadDir, t)
  {
    var outtmpl := Join(downloadDir, SafeTitle(t.title, t.id) + TemplateSuffix);
    assert outtmpl == OutputTemplate(downloadDir, t);
    cmd := base + ["--newline", "-o", outtmpl];
    cmd := AddSortKey(cmd, t);
    cmd := AddFormat(cmd, t);
    cmd := cmd + [t.url];
  }
}
