/** Reading the answer Stockfish gives to the UCI handshake: whether the
    binary works (it answers `uciok`) and its name and author (the `id name`
    and `id author` lines).

    Starting the process, feeding it "uci\nquit\n" and decoding its output
    are not modelled: a probe of the binary is given as its outcome, either
    no file at the path, an exception while running it, or the decoded text
    it printed. */
module StockfishConfig {
  import opened Chess

  /** What running the binary at a path gave. */
  datatype Probe = PathMissing | Raised | Output(text: string)

  // ----- Substrings -----

  /** `pat` occurs in `s` at index `i`. */
  predicate OccursAt(s: string, pat: string, i: nat)
  {
    i + |pat| <= |s| && s[i..i + |pat|] == pat
  }

  predicate StartsWith(s: string, prefix: string)
  {
    OccursAt(s, prefix, 0)
  }

  /** Python's `pat in s`. */
  function Contains(s: string, pat: string): (b: bool)
    ensures b <==> exists i: nat :: OccursAt(s, pat, i)
    decreases |s|
  {
    if |s| < |pat| then
      assert forall i :: !OccursAt(s, pat, i);
      false
    else if s[..|pat|] == pat then
      assert OccursAt(s, pat, 0);
      true
    else
      var b := Contains(s[1..], pat);
      assert forall i: nat :: OccursAt(s[1..], pat, i) <==> OccursAt(s, pat, i + 1) by {
        forall i: nat ensures OccursAt(s[1..], pat, i) <==> OccursAt(s, pat, i + 1) {
          if i + |pat| <= |s[1..]| {
            assert s[1..][i..i + |pat|] == s[i + 1..i + 1 + |pat|];
          }
        }
      }
      assert b ==> exists i :: OccursAt(s, pat, i) by {
        if b {
          var i: nat :| OccursAt(s[1..], pat, i);
          assert OccursAt(s, pat, i + 1);
        }
      }
      assert (exists i :: OccursAt(s, pat, i)) ==> b by {
        if exists i :: OccursAt(s, pat, i) {
          var i: nat :| OccursAt(s, pat, i);
          assert i != 0;
          assert OccursAt(s[1..], pat, i - 1);
        }
      }
      b
  }

  /** `s.split(sep)[0]`: the text of `s` before the first occurrence of
      `sep`, or all of `s` when there is none. */
  function Before(s: string, sep: string): (r: string)
    requires sep != []
    ensures |r| <= |s| && r == s[..|r|]
    ensures forall i :: OccursAt(s, sep, i) ==> |r| <= i
    ensures |r| < |s| ==> OccursAt(s, sep, |r|)
    decreases |s|
  {
    if StartsWith(s, sep) then []
    else if s == [] then []
    else
      var r := [s[0]] + Before(s[1..], sep);
      assert forall i: nat :: OccursAt(s, sep, i + 1) ==> OccursAt(s[1..], sep, i) by {
        forall i: nat | OccursAt(s, sep, i + 1) ensures OccursAt(s[1..], sep, i) {
          assert s[1..][i..i + |sep|] == s[i + 1..i + 1 + |sep|];
        }
      }
      assert forall i: nat :: OccursAt(s[1..], sep, i) ==> OccursAt(s, sep, i + 1) by {
        forall i: nat | OccursAt(s[1..], sep, i) ensures OccursAt(s, sep, i + 1) {
          assert s[1..][i..i + |sep|] == s[i + 1..i + 1 + |sep|];
        }
      }
      assert forall i: nat :: OccursAt(s, sep, i) ==> |r| <= i by {
        forall i: nat | OccursAt(s, sep, i) ensures |r| <= i {
          assert i != 0;
          assert OccursAt(s[1..], sep, i - 1);
        }
      }
      r
  }

  /** `line.split(prefix)[1]` for a line that starts with `prefix`: the text
      after the prefix up to the next occurrence of the prefix. */
  function AfterPrefix(line: string, prefix: string): (r: string)
    requires prefix != [] && StartsWith(line, prefix)
    ensures |prefix| + |r| <= |line| && line[|prefix|..|prefix| + |r|] == r
  {
    Before(line[|prefix|..], prefix)
  }

  // ----- Whitespace -----

  /** Python's `str.isspace` for one character. */
  predicate IsSpace(c: char)
  {
    c == ' ' || '\t' <= c <= '\r' || '\U{1c}' <= c <= '\U{1f}' || c == '\U{85}' || c == '\U{a0}'
    || c == '\U{1680}' || '\U{2000}' <= c <= '\U{200a}' || c == '\U{2028}' || c == '\U{2029}'
    || c == '\U{202f}' || c == '\U{205f}' || c == '\U{3000}'
  }

  /** `s.lstrip()`. */
  function TrimStart(s: string): (r: string)
    ensures |r| <= |s| && r == s[|s| - |r|..]
    ensures forall i :: 0 <= i < |s| - |r| ==> IsSpace(s[i])
    ensures r != [] ==> !IsSpace(r[0])
  {
    if s != [] && IsSpace(s[0]) then TrimStart(s[1..]) else s
  }

  /** `s.rstrip()`. */
  function TrimEnd(s: string): (r: string)
    ensures |r| <= |s| && r == s[..|r|]
    ensures forall i :: |r| <= i < |s| ==> IsSpace(s[i])
    ensures r != [] ==> !IsSpace(r[|r| - 1])
  {
    if s != [] && IsSpace(s[|s| - 1]) then TrimEnd(s[..|s| - 1]) else s
  }

  /** `s.strip()`: `s` without its leading and trailing whitespace. */
  function Strip(s: string): (r: string)
    ensures r != [] ==> !IsSpace(r[0]) && !IsSpace(r[|r| - 1])
  {
    TrimEnd(TrimStart(s))
  }

  /** The value an `id` line carries: what follows its prefix, stripped. */
  function Field(line: string, prefix: string): string
    requires prefix != [] && StartsWith(line, prefix)
  {
    Strip(AfterPrefix(line, prefix))
  }

  // ----- Lines -----

  /** The lines joined back with newlines. */
  function JoinLines(lines: seq<string>): string
    requires lines != []
  {
    if |lines| == 1 then lines[0] else lines[0] + "\n" + JoinLines(lines[1..])
  }

  /** `s.split('\n')`: the pieces of `s` between newlines; always at least
      one, none holding a newline, and joined back they give `s`. */
  function SplitLines(s: string): (lines: seq<string>)
    ensures lines != []
    ensures forall k :: 0 <= k < |lines| ==> '\n' !in lines[k]
    ensures JoinLines(lines) == s
  {
    if s == [] then [""]
    else
      var rest := SplitLines(s[1..]);
      if s[0] == '\n' then
        assert [""] + rest == [""] + rest;
        [""] + rest
      else
        var lines := [[s[0]] + rest[0]] + rest[1..];
        assert lines[1..] == rest[1..];
        assert JoinLines(lines) == s by {
          if |rest| > 1 {
            assert rest == [rest[0]] + rest[1..];
            assert rest[1..] == lines[1..];
          }
        }
        lines
  }

  // ----- validate_stockfish -----

  /** `validate_stockfish`: false when there is no file at the path or
      running it raised, otherwise whether its output contains "uciok". */
  function ValidateStockfish(probe: Probe): (ok: bool)
    ensures ok <==> probe.Output? && exists i :: OccursAt(probe.text, "uciok", i)
  {
    match probe
    case PathMissing => false
    case Raised => false
    case Output(text) => Contains(text, "uciok")
  }

  // ----- get_stockfish_info -----

  /** The line prefix that sets each key. */
  function PrefixOf(key: string): string
  {
    "id " + key
  }

  /** The key a line sets: "name" for an `id name` line, "author" for an
      `id author` line, none for any other line. */
  function Tag(line: string): (t: Option<string>)
    ensures t.Some? ==> t.value in {"name", "author"} && StartsWith(line, PrefixOf(t.value))
    ensures t.None? <==> !StartsWith(line, PrefixOf("name")) && !StartsWith(line, PrefixOf("author"))
  {
    assert PrefixOf("name") == "id name" && PrefixOf("author") == "id author";
    if StartsWith(line, "id name") then Some("name")
    else if StartsWith(line, "id author") then Some("author")
    else None
  }

  /** No line starts with both prefixes, so a line that starts with a key's
      prefix sets that key. */
  lemma TagOfLine(line: string, key: string)
    requires key in {"name", "author"}
    ensures Tag(line) == Some(key) <==> StartsWith(line, PrefixOf(key))
  {
    assert PrefixOf("name")[3] != PrefixOf("author")[3];
    if StartsWith(line, PrefixOf(key)) {
      assert line[3] == PrefixOf(key)[3];
    }
  }

  /** The dictionary after one more line of the loop: an `id name` line
      sets the name, an `id author` line the author, any other line nothing. */
  function Step(info: map<string, string>, line: string): map<string, string>
  {
    if StartsWith(line, "id name") then info["name" := Field(line, "id name")]
    else if StartsWith(line, "id author") then info["author" := Field(line, "id author")]
    else info
  }

  /** A step sets the key the line is tagged with, to the line's field. */
  lemma StepSetsTag(info: map<string, string>, line: string)
    ensures Step(info, line) == match Tag(line)
                                case None => info
                                case Some(key) => info[key := Field(line, PrefixOf(key))]
  {
    assert PrefixOf("name") == "id name" && PrefixOf("author") == "id author";
    if StartsWith(line, "id name") {
      assert Tag(line) == Some("name");
    } else if StartsWith(line, "id author") {
      assert Tag(line) == Some("author");
    } else {
      assert Tag(line) == None;
    }
  }

  /** The dictionary the loop builds from `lines`. */
  function Info(lines: seq<string>): map<string, string>
  {
    if lines == [] then map[] else Step(Info(lines[..|lines| - 1]), lines[|lines| - 1])
  }

  /** `get_stockfish_info`: the dictionary built from the output lines,
      `None` when it is empty, when there is no file at the path, or when
      running the binary raised. */
  function StockfishInfo(probe: Probe): (r: Option<map<string, string>>)
    ensures probe.PathMissing? || probe.Raised? ==> r == None
    ensures r.Some? ==> r.value != map[]
  {
    match probe
    case PathMissing => None
    case Raised => None
    case Output(text) =>
      var info := Info(SplitLines(text));
      if info == map[] then None else Some(info)
  }

  /** `get_stockfish_info` as the source runs it: the loop over the output
      lines fills the dictionary one line at a time. */
  method GetStockfishInfo(probe: Probe) returns (r: Option<map<string, string>>)
    ensures r == StockfishInfo(probe)
  {
    if !probe.Output? {
      return None;
    }
    var info := ParseLines(SplitLines(probe.text));
    r := if info == map[] then None else Some(info);
  }

  /** The loop of `get_stockfish_info`. */
  method ParseLines(lines: seq<string>) returns (info: map<string, string>)
    ensures info == Info(lines)
  {
    info := map[];
    for k := 0 to |lines|
      invariant info == Info(lines[..k])
    {
      InfoPrefix(lines, k);
      info := Step(info, lines[k]);
    }
    assert lines[..|lines|] == lines;
  }

  // ----- Properties -----

  /** Only "name" and "author" are ever set. */
  lemma {:induction false} OnlyIdKeys(lines: seq<string>)
    ensures Info(lines).Keys <= {"name", "author"}
  {
    if lines != [] {
      OnlyIdKeys(lines[..|lines| - 1]);
    }
  }

  /** A key is set exactly when some line sets it. */
  lemma {:induction false} KeySetIffLine(lines: seq<string>, key: string)
    ensures key in Info(lines) <==> exists i :: 0 <= i < |lines| && Tag(lines[i]) == Some(key)
  {
    if lines != [] {
      var init := lines[..|lines| - 1];
      KeySetIffLine(init, key);
      StepSetsTag(Info(init), lines[|lines| - 1]);
      assert forall i :: 0 <= i < |init| ==> init[i] == lines[i];
      if exists i :: 0 <= i < |lines| && Tag(lines[i]) == Some(key) {
        var i :| 0 <= i < |lines| && Tag(lines[i]) == Some(key);
        if i < |init| {
          assert Tag(init[i]) == Some(key);
        }
      }
    }
  }

  /** When several lines set a key, the last of them gives its value. */
  lemma {:induction false} LastLineWins(lines: seq<string>, key: string, k: nat)
    requires k < |lines| && Tag(lines[k]) == Some(key)
    requires forall j :: k < j < |lines| ==> Tag(lines[j]) != Some(key)
    ensures key in Info(lines) && Info(lines)[key] == Field(lines[k], PrefixOf(key))
  {
    var init, last := lines[..|lines| - 1], lines[|lines| - 1];
    StepSetsTag(Info(init), last);
    if k < |init| {
      assert init[k] == lines[k];
      LastLineWins(init, key, k);
      assert Tag(last) != Some(key);
    }
  }

  /** A line that starts with neither prefix changes nothing, wherever it
      stands. */
  lemma {:induction false} OtherLinesIgnored(a: seq<string>, line: string, b: seq<string>)
    requires Tag(line) == None
    ensures Info(a + [line] + b) == Info(a + b)
    decreases |b|
  {
    if b == [] {
      DropLast(a, [line]);
      assert a + [line] + b == a + [line];
      assert a + b == a;
      assert Info(a + [line]) == Step(Info(a), line);
    } else {
      OtherLinesIgnored(a, line, b[..|b| - 1]);
      InfoDropLast(a + [line], b);
      InfoDropLast(a, b);
    }
  }

  /** The last line of a non-empty second part is the last step. */
  lemma InfoDropLast(x: seq<string>, b: seq<string>)
    requires b != []
    ensures Info(x + b) == Step(Info(x + b[..|b| - 1]), b[|b| - 1])
  {
    DropLast(x, b);
  }

  /** Dropping the last element of a concatenation with a non-empty second
      part drops it from the second part. */
  lemma DropLast<T>(x: seq<T>, b: seq<T>)
    requires b != []
    ensures (x + b)[..|x + b| - 1] == x + b[..|b| - 1]
    ensures (x + b)[|x + b| - 1] == b[|b| - 1]
  {
  }

  /** The first `k + 1` lines give one more step than the first `k`. */
  lemma InfoPrefix(lines: seq<string>, k: nat)
    requires k < |lines|
    ensures Info(lines[..k + 1]) == Step(Info(lines[..k]), lines[k])
  {
    assert lines[..k + 1][..k] == lines[..k];
  }

  /** The dictionary stays empty exactly when no line sets a key. */
  lemma InfoEmptyIff(lines: seq<string>)
    ensures Info(lines) == map[] <==> forall i :: 0 <= i < |lines| ==> Tag(lines[i]) == None
  {
    KeySetIffLine(lines, "name");
    KeySetIffLine(lines, "author");
    OnlyIdKeys(lines);
    var info := Info(lines);
    if info != map[] {
      var key :| key in info;
      assert key == "name" || key == "author";
    } else {
      forall i | 0 <= i < |lines| ensures Tag(lines[i]) == None {
        assert Tag(lines[i]) != Some("name") && Tag(lines[i]) != Some("author");
      }
    }
  }

  /** The result is `None` exactly when the path is missing, running the
      binary raised, or no output line sets a key. */
  lemma InfoNoneIff(probe: Probe)
    ensures StockfishInfo(probe) == None <==>
      !probe.Output? || forall i :: 0 <= i < |SplitLines(probe.text)| ==> Tag(SplitLines(probe.text)[i]) == None
  {
    if probe.Output? {
      var lines := SplitLines(probe.text);
      var info := Info(lines);
      assert StockfishInfo(probe) == if info == map[] then None else Some(info);
      InfoEmptyIff(lines);
    }
  }

  /** Whitespace around a stripped value is stripped again: `strip` is
      idempotent. */
  lemma StripIdempotent(s: string)
    ensures Strip(Strip(s)) == Strip(s)
  {
    var r := Strip(s);
    if r != [] {
      assert TrimStart(r) == r;
      assert TrimEnd(r) == r;
    }
  }
}
