/** parse.py: reading the build file into a map of settings, and rewriting
    the lines of settings.py with that map. Files are sequences of lines;
    `eval`, `float()`, `int()` and the text form of a float are the fields
    of a `Conversions` value. */
module Parse {

  datatype Option<T> = None | Some(value: T)

  /** The settings a build file can change. */
  datatype Key = Color | TimeStep | G | LogToggle | RgbToggle

  /** A parsed setting: a color, as the text of the object `eval` produced,
      a number, or a flag. */
  datatype Value = ColorValue(shown: string) | Number(r: real) | Flag(b: bool)

  /** The Python conversions parse.py relies on. Each parser returns None
      where the Python call raises: `evaluate` is `eval` followed by `str` of
      its result, and is None when either raises; `toFloat` is `float()`,
      `toInt` is `int()`; `showFloat` is `str` of a float. An `eval` result
      whose `str` raises is not modelled; see README. */
  datatype Conversions = Conversions(
    evaluate: string -> Option<string>,
    toFloat: string -> Option<real>,
    toInt: string -> Option<int>,
    showFloat: real -> string)

  // ---------------------------------------------------------------------
  // Text helpers
  // ---------------------------------------------------------------------

  /** The characters `str.strip()` removes: those for which `str.isspace()`
      holds. */
  predicate IsSpace(c: char)
  {
    c == ' ' || c == '\t' || c == '\n' || c == '\r' || c == '\U{000B}' || c == '\U{000C}' ||
    ('\U{001C}' <= c <= '\U{001F}') || c == '\U{0085}' || c == '\U{00A0}' || c == '\U{1680}' ||
    ('\U{2000}' <= c <= '\U{200A}') || c == '\U{2028}' || c == '\U{2029}' || c == '\U{202F}' ||
    c == '\U{205F}' || c == '\U{3000}'
  }

  /** s without its leading white space. */
  function TrimStart(s: string): (r: string)
  {
    if |s| > 0 && IsSpace(s[0]) then TrimStart(s[1..]) else s
  }

  /** s without its trailing white space. */
  function TrimEnd(s: string): (r: string)
  {
    if |s| > 0 && IsSpace(s[|s| - 1]) then TrimEnd(s[..|s| - 1]) else s
  }

  /** `s.strip()`. */
  function Strip(s: string): (r: string)
  {
    TrimEnd(TrimStart(s))
  }

  /** TrimStart removes a prefix of white space and stops at the first
      other character. */
  lemma {:induction false} TrimStartSpec(s: string)
    ensures var r := TrimStart(s);
      |r| <= |s| && r == s[|s| - |r|..] &&
      (forall i :: 0 <= i < |s| - |r| ==> IsSpace(s[i])) &&
      (|r| > 0 ==> !IsSpace(r[0]))
    decreases |s|
  {
    if |s| > 0 && IsSpace(s[0]) {
      TrimStartSpec(s[1..]);
    }
  }

  /** TrimEnd removes a suffix of white space and stops at the last other
      character. */
  lemma {:induction false} TrimEndSpec(s: string)
    ensures var r := TrimEnd(s);
      |r| <= |s| && r == s[..|r|] &&
      (forall i :: |r| <= i < |s| ==> IsSpace(s[i])) &&
      (|r| > 0 ==> !IsSpace(r[|r| - 1]))
    decreases |s|
  {
    if |s| > 0 && IsSpace(s[|s| - 1]) {
      TrimEndSpec(s[..|s| - 1]);
    }
  }

  /** `s.strip()` is the slice s[a..b] with only white space before a and
      after b, and with no white space at either of its ends. */
  lemma StripSpec(s: string)
    ensures exists a, b ::
      (0 <= a <= b <= |s| && Strip(s) == s[a..b] &&
       (forall i :: 0 <= i < a ==> IsSpace(s[i])) &&
       (forall i :: b <= i < |s| ==> IsSpace(s[i])))
    ensures |Strip(s)| > 0 ==> !IsSpace(Strip(s)[0]) && !IsSpace(Strip(s)[|Strip(s)| - 1])
  {
    var t := TrimStart(s);
    TrimStartSpec(s);
    TrimEndSpec(t);
    var r := TrimEnd(t);
    var a := |s| - |t|;
    assert r == s[a..a + |r|];
    assert forall i :: a + |r| <= i < |s| ==> s[i] == t[i - a];
  }

  /** Stripping twice is stripping once. */
  lemma StripIdempotent(s: string)
    ensures Strip(Strip(s)) == Strip(s)
  {
    var t := TrimStart(s);
    TrimStartSpec(s);
    TrimEndSpec(t);
    var r := TrimEnd(t);
    if |r| > 0 {
      assert r[0] == t[0];
    }
  }

  /** `s.startswith(p)`. */
  predicate StartsWith(s: string, p: string)
  {
    |p| <= |s| && s[..|p|] == p
  }

  /** A string that starts with p starts with the first character of p. */
  lemma StartsWithFirst(s: string, p: string)
    requires StartsWith(s, p) && |p| > 0
    ensures s[0] == p[0]
  {
    assert s[..|p|][0] == s[0];
  }

  /** `s.split("=", 1)[1]`: the text after the first '='. */
  function AfterFirstEquals(s: string): (r: string)
    requires '=' in s
  {
    if s[0] == '=' then s[1..]
    else
      assert s == [s[0]] + s[1..];
      AfterFirstEquals(s[1..])
  }

  /** When the first '=' is at index n, the text after it is s[n + 1..]. */
  lemma {:induction false} AfterFirstEqualsSpec(s: string, n: nat)
    requires n < |s| && s[n] == '=' && forall i :: 0 <= i < n ==> s[i] != '='
    ensures AfterFirstEquals(s) == s[n + 1..]
    decreases n
  {
    if n > 0 {
      assert s[1..][n - 1] == '=';
      AfterFirstEqualsSpec(s[1..], n - 1);
    }
  }

  // ---------------------------------------------------------------------
  // parse_build_file (parse.py:12-68)
  // ---------------------------------------------------------------------

  /** The prefix of a build-file line that sets each key. */
  function Prefix(k: Key): string
  {
    match k
    case Color => "color ="
    case TimeStep => "tstep ="
    case G => "g ="
    case LogToggle => "log ="
    case RgbToggle => "rgb ="
  }

  /** The key a stripped line is about, by the first prefix of the elif
      chain that it starts with. */
  function Directive(t: string): (k: Option<Key>)
    ensures k.Some? ==> StartsWith(t, Prefix(k.value))
  {
    if StartsWith(t, "color =") then Some(Color)
    else if StartsWith(t, "tstep =") then Some(TimeStep)
    else if StartsWith(t, "g =") then Some(G)
    else if StartsWith(t, "log =") then Some(LogToggle)
    else if StartsWith(t, "rgb =") then Some(RgbToggle)
    else None
  }

  /** The five prefixes begin with five different letters, so a line starts
      with at most one of them and the order of the elif chain does not
      matter. */
  lemma DirectiveByPrefix(t: string, k: Key)
    ensures Directive(t) == Some(k) <==> StartsWith(t, Prefix(k))
  {
    if StartsWith(t, Prefix(k)) {
      StartsWithFirst(t, Prefix(k));
    }
    if Directive(t).Some? {
      var d := Directive(t).value;
      StartsWithFirst(t, Prefix(d));
    }
  }

  /** The text of the value on a stripped line that starts with the prefix
      of k: what follows the first '=', stripped. */
  function ValueText(t: string, k: Key): string
    requires StartsWith(t, Prefix(k))
  {
    assert t[|Prefix(k)| - 1] == t[..|Prefix(k)|][|Prefix(k)| - 1];
    Strip(AfterFirstEquals(t))
  }

  /** Each prefix ends with its only '=', so the value text is the rest of
      the line after the prefix, stripped. */
  lemma ValueTextAfterPrefix(t: string, k: Key)
    requires StartsWith(t, Prefix(k))
    ensures ValueText(t, k) == Strip(t[|Prefix(k)|..])
  {
    var p := Prefix(k);
    assert t[|p| - 1] == p[|p| - 1] == '=' by {
      assert t[..|p|][|p| - 1] == t[|p| - 1];
    }
    forall i | 0 <= i < |p| - 1
      ensures t[i] != '='
    {
      assert t[..|p|][i] == t[i];
    }
    AfterFirstEqualsSpec(t, |p| - 1);
  }

  /** Converts the value text of a key's line: `eval` for the color,
      `float()` for the time step and G, `bool(int())` for the toggles.
      None where the conversion raises, which the Python code catches and
      then keeps the key as it was. The one case where Python keeps a new
      color although formatting it raises is not modelled; see README. */
  function Convert(conv: Conversions, k: Key, text: string): Option<Value>
  {
    match k
    case Color =>
      (match conv.evaluate(text)
       case None => None
       case Some(s) => Some(ColorValue(s)))
    case TimeStep | G =>
      (match conv.toFloat(text)
       case None => None
       case Some(x) => Some(Number(x)))
    case LogToggle | RgbToggle =>
      (match conv.toInt(text)
       case None => None
       case Some(n) => Some(Flag(n != 0)))
  }

  /** `bool(int(text))`: 0 gives False, every other integer True, and text
      that is not an integer is rejected. */
  lemma ToggleValue(conv: Conversions, k: Key, text: string)
    requires k == LogToggle || k == RgbToggle
    ensures conv.toInt(text) == None ==> Convert(conv, k, text) == None
    ensures conv.toInt(text) == Some(0) ==> Convert(conv, k, text) == Some(Flag(false))
    ensures forall n: int :: n != 0 && conv.toInt(text) == Some(n) ==> Convert(conv, k, text) == Some(Flag(true))
  {
  }

  /** The setting one build-file line makes, if any: blank lines and
      comments make none, nor do lines with an unknown prefix or a value
      that does not convert. */
  function LineSetting(conv: Conversions, line: string): Option<(Key, Value)>
  {
    var t := Strip(line);
    if |t| == 0 || StartsWith(t, "#") then None
    else
      match Directive(t)
      case None => None
      case Some(k) =>
        match Convert(conv, k, ValueText(t, k))
        case None => None
        case Some(v) => Some((k, v))
  }

  /** A line is skipped when it is empty after stripping or starts with
      '#'. */
  lemma IgnoredLine(conv: Conversions, line: string)
    requires |Strip(line)| == 0 || StartsWith(Strip(line), "#")
    ensures LineSetting(conv, line) == None
  {
  }

  /** A line sets k to v exactly when, stripped, it starts with the prefix
      of k and the rest of it, stripped, converts to v. */
  lemma LineSettingByPrefix(conv: Conversions, line: string, k: Key, v: Value)
    ensures LineSetting(conv, line) == Some((k, v)) <==>
      StartsWith(Strip(line), Prefix(k)) &&
      Convert(conv, k, Strip(Strip(line)[|Prefix(k)|..])) == Some(v)
  {
    var t := Strip(line);
    DirectiveByPrefix(t, k);
    if StartsWith(t, Prefix(k)) {
      ValueTextAfterPrefix(t, k);
      StartsWithFirst(t, Prefix(k));
    }
  }

  /** The map after one line's setting, if it makes one. */
  function Apply(settings: map<Key, Value>, o: Option<(Key, Value)>): map<Key, Value>
  {
    match o
    case None => settings
    case Some(kv) => settings[kv.0 := kv.1]
  }

  /** One iteration of the loop over the build file's lines. */
  function ParseLine(conv: Conversions, settings: map<Key, Value>, line: string): map<Key, Value>
  {
    Apply(settings, LineSetting(conv, line))
  }

  /** The settings read from the first lines of a build file, folding from
      an empty map. */
  function Parsed(conv: Conversions, lines: seq<string>): map<Key, Value>
  {
    if |lines| == 0 then map[]
    else ParseLine(conv, Parsed(conv, lines[..|lines| - 1]), lines[|lines| - 1])
  }

  /** The outcome o sets key k. */
  predicate Sets(o: Option<(Key, Value)>, k: Key)
  {
    o.Some? && o.value.0 == k
  }

  /** Line l sets key k. */
  predicate SetsKey(conv: Conversions, line: string, k: Key)
  {
    Sets(LineSetting(conv, line), k)
  }

  /** The setting of each line. */
  function Outcomes(conv: Conversions, lines: seq<string>): (o: seq<Option<(Key, Value)>>)
    ensures |o| == |lines| && forall i :: 0 <= i < |lines| ==> o[i] == LineSetting(conv, lines[i])
  {
    seq(|lines|, i requires 0 <= i < |lines| => LineSetting(conv, lines[i]))
  }

  /** The fold of the loop over a sequence of line settings. */
  function Fold(outs: seq<Option<(Key, Value)>>): map<Key, Value>
  {
    if |outs| == 0 then map[]
    else Apply(Fold(outs[..|outs| - 1]), outs[|outs| - 1])
  }

  lemma {:induction false} ParsedIsFold(conv: Conversions, lines: seq<string>)
    ensures Parsed(conv, lines) == Fold(Outcomes(conv, lines))
    decreases |lines|
  {
    if |lines| > 0 {
      var n := |lines| - 1;
      ParsedIsFold(conv, lines[..n]);
      assert Outcomes(conv, lines)[..n] == Outcomes(conv, lines[..n]);
    }
  }

  lemma {:induction false} FoldHasKey(outs: seq<Option<(Key, Value)>>, k: Key)
    ensures k in Fold(outs) <==> exists i :: 0 <= i < |outs| && Sets(outs[i], k)
    decreases |outs|
  {
    if |outs| > 0 {
      var n := |outs| - 1;
      var init := outs[..n];
      FoldHasKey(init, k);
      if !Sets(outs[n], k) && k in Fold(outs) {
        var i :| 0 <= i < n && Sets(init[i], k);
        assert init[i] == outs[i];
      }
      if exists i :: 0 <= i < n && Sets(outs[i], k) {
        var i :| 0 <= i < n && Sets(outs[i], k);
        assert init[i] == outs[i];
      }
    }
  }

  lemma {:induction false} FoldLastWins(outs: seq<Option<(Key, Value)>>, k: Key, i: nat)
    requires i < |outs| && Sets(outs[i], k)
    requires forall j :: i < j < |outs| ==> !Sets(outs[j], k)
    ensures k in Fold(outs) && outs[i] == Some((k, Fold(outs)[k]))
    decreases |outs|
  {
    var n := |outs| - 1;
    var init := outs[..n];
    if i < n {
      assert init[i] == outs[i];
      forall j | i < j < |init|
        ensures !Sets(init[j], k)
      {
        assert init[j] == outs[j];
      }
      FoldLastWins(init, k, i);
    }
  }

  /** A key is in the parsed map exactly when some line sets it. */
  lemma ParsedHasKey(conv: Conversions, lines: seq<string>, k: Key)
    ensures k in Parsed(conv, lines) <==> exists i :: 0 <= i < |lines| && SetsKey(conv, lines[i], k)
  {
    var outs := Outcomes(conv, lines);
    ParsedIsFold(conv, lines);
    FoldHasKey(outs, k);
    if exists i :: 0 <= i < |lines| && SetsKey(conv, lines[i], k) {
      var i :| 0 <= i < |lines| && SetsKey(conv, lines[i], k);
      assert Sets(outs[i], k);
    }
  }

  /** The last line that sets a key gives its value: the last valid line
      wins, and later lines with a bad value leave the key as it was. */
  lemma ParsedLastValidWins(conv: Conversions, lines: seq<string>, k: Key, i: nat)
    requires i < |lines| && SetsKey(conv, lines[i], k)
    requires forall j :: i < j < |lines| ==> !SetsKey(conv, lines[j], k)
    ensures k in Parsed(conv, lines) && LineSetting(conv, lines[i]) == Some((k, Parsed(conv, lines)[k]))
  {
    var outs := Outcomes(conv, lines);
    ParsedIsFold(conv, lines);
    forall j | i < j < |outs|
      ensures !Sets(outs[j], k)
    {
      assert !SetsKey(conv, lines[j], k);
    }
    FoldLastWins(outs, k, i);
  }

  /** Only the five keys can be set, and each only by a line for it. */
  lemma {:induction false} ParsedKeys(conv: Conversions, lines: seq<string>)
    ensures forall k :: k in Parsed(conv, lines) ==>
      exists i :: 0 <= i < |lines| && StartsWith(Strip(lines[i]), Prefix(k))
  {
    forall k | k in Parsed(conv, lines)
      ensures exists i :: 0 <= i < |lines| && StartsWith(Strip(lines[i]), Prefix(k))
    {
      ParsedHasKey(conv, lines, k);
      var i :| 0 <= i < |lines| && SetsKey(conv, lines[i], k);
      LineSettingByPrefix(conv, lines[i], k, LineSetting(conv, lines[i]).value.1);
    }
  }

  /** Removing a line that sets nothing, such as a blank line or a comment,
      from anywhere in the build file does not change the parsed map. */
  lemma {:induction false} ParsedWithoutIdleLine(conv: Conversions, a: seq<string>, line: string, b: seq<string>)
    requires LineSetting(conv, line) == None
    ensures Parsed(conv, a + [line] + b) == Parsed(conv, a + b)
    decreases |b|
  {
    if |b| == 0 {
      assert a + [line] + b == a + [line];
      assert (a + [line])[..|a|] == a;
      assert a + b == a;
    } else {
      var b' := b[..|b| - 1];
      ParsedWithoutIdleLine(conv, a, line, b');
      assert (a + [line] + b)[..|a + [line] + b| - 1] == a + [line] + b';
      assert (a + b)[..|a + b| - 1] == a + b';
      assert (a + [line] + b)[|a + [line] + b| - 1] == b[|b| - 1];
      assert (a + b)[|a + b| - 1] == b[|b| - 1];
    }
  }

  /** parse_build_file: None for a missing build file, which leaves
      settings.py alone; otherwise the parsed map and the lines of
      settings.py as update_settings_file writes them. */
  method ParseBuildFile(conv: Conversions, buildFile: Option<seq<string>>, settingsFile: seq<string>)
    returns (newSettings: Option<map<Key, Value>>, written: Option<seq<string>>)
    ensures buildFile.None? ==> newSettings.None? && written.None?
    ensures buildFile.Some? ==>
      newSettings == Some(Parsed(conv, buildFile.value)) &&
      written == Some(Rewritten(conv, Parsed(conv, buildFile.value), settingsFile))
  {
    if buildFile.None? {
      return None, None;
    }
    var lines := buildFile.value;
    var settings: map<Key, Value> := map[];
    for i := 0 to |lines|
      invariant settings == Parsed(conv, lines[..i])
    {
      assert lines[..i + 1][..i] == lines[..i];
      assert Parsed(conv, lines[..i + 1]) == ParseLine(conv, settings, lines[i]);
      var line := Strip(lines[i]);
      if |line| == 0 || StartsWith(line, "#") {
        continue;
      }
      if StartsWith(line, "color =") {
        var value := conv.evaluate(ValueText(line, Color));
        if value.Some? {
          settings := settings[Color := ColorValue(value.value)];
        }
      } else if StartsWith(line, "tstep =") {
        var value := conv.toFloat(ValueText(line, TimeStep));
        if value.Some? {
          settings := settings[TimeStep := Number(value.value)];
        }
      } else if StartsWith(line, "g =") {
        var value := conv.toFloat(ValueText(line, G));
        if value.Some? {
          settings := settings[G := Number(value.value)];
        }
      } else if StartsWith(line, "log =") {
        var value := conv.toInt(ValueText(line, LogToggle));
        if value.Some? {
          settings := settings[LogToggle := Flag(value.value != 0)];
        }
      } else if StartsWith(line, "rgb =") {
        var value := conv.toInt(ValueText(line, RgbToggle));
        if value.Some? {
          settings := settings[RgbToggle := Flag(value.value != 0)];
        }
      }
    }
    assert lines[..|lines|] == lines;
    var out := UpdateSettingsFile(conv, settings, settingsFile);
    return Some(settings), Some(out);
  }

  // ---------------------------------------------------------------------
  // update_settings_file (parse.py:70-95)
  // ---------------------------------------------------------------------

  /** The start of a settings.py line that update_settings_file replaces
      for each key; the test is on the raw line. */
  function Marker(k: Key): string
  {
    match k
    case Color => "COLOR"
    case TimeStep => "TIME_STEP"
    case G => "G ="
    case LogToggle => "LOG_TOGGLE"
    case RgbToggle => "RGB_TOGGLE"
  }

  /** `str` of a value, as the f-string writes it. */
  function Show(conv: Conversions, v: Value): string
  {
    match v
    case ColorValue(s) => s
    case Number(x) => conv.showFloat(x)
    case Flag(b) => if b then "True" else "False"
  }

  /** The key whose line this is, by the first branch of the elif chain
      that applies: the line starts with the key's marker and the key is in
      the map. */
  function Replaces(settings: map<Key, Value>, line: string): (k: Option<Key>)
    ensures k.Some? ==> k.value in settings && StartsWith(line, Marker(k.value))
  {
    if StartsWith(line, "COLOR") && Color in settings then Some(Color)
    else if StartsWith(line, "TIME_STEP") && TimeStep in settings then Some(TimeStep)
    else if StartsWith(line, "G =") && G in settings then Some(G)
    else if StartsWith(line, "LOG_TOGGLE") && LogToggle in settings then Some(LogToggle)
    else if StartsWith(line, "RGB_TOGGLE") && RgbToggle in settings then Some(RgbToggle)
    else None
  }

  /** The markers begin with five different letters, so a line is replaced
      for key k exactly when it starts with k's marker and k is in the
      map. */
  lemma ReplacesByMarker(settings: map<Key, Value>, line: string, k: Key)
    ensures Replaces(settings, line) == Some(k) <==> k in settings && StartsWith(line, Marker(k))
  {
    if StartsWith(line, Marker(k)) {
      StartsWithFirst(line, Marker(k));
    }
    if Replaces(settings, line).Some? {
      var d := Replaces(settings, line).value;
      StartsWithFirst(line, Marker(d));
    }
  }

  /** The line written for key k: the name of the key in settings.py, " = ",
      the value and a newline. */
  function SettingLine(conv: Conversions, k: Key, v: Value): string
  {
    match k
    case Color => "COLOR = " + Show(conv, v) + "\n"
    case TimeStep => "TIME_STEP = " + Show(conv, v) + "\n"
    case G => "G = " + Show(conv, v) + "\n"
    case LogToggle => "LOG_TOGGLE = " + Show(conv, v) + "\n"
    case RgbToggle => "RGB_TOGGLE = " + Show(conv, v) + "\n"
  }

  /** One iteration of the rewrite loop. */
  function RewriteLine(conv: Conversions, settings: map<Key, Value>, line: string): string
  {
    match Replaces(settings, line)
    case None => line
    case Some(k) => SettingLine(conv, k, settings[k])
  }

  /** A line that starts with the marker of a key in the map becomes that
      key's setting line; every other line is copied unchanged. */
  lemma RewriteLineCases(conv: Conversions, settings: map<Key, Value>, line: string)
    ensures (forall k :: !(k in settings && StartsWith(line, Marker(k)))) ==>
      RewriteLine(conv, settings, line) == line
    ensures forall k :: k in settings && StartsWith(line, Marker(k)) ==>
      RewriteLine(conv, settings, line) == SettingLine(conv, k, settings[k])
  {
    forall k | k in settings && StartsWith(line, Marker(k))
      ensures RewriteLine(conv, settings, line) == SettingLine(conv, k, settings[k])
    {
      ReplacesByMarker(settings, line, k);
    }
  }

  /** The lines of settings.py after the rewrite loop has seen the given
      lines. */
  function Rewritten(conv: Conversions, settings: map<Key, Value>, lines: seq<string>): (r: seq<string>)
    ensures |r| == |lines|
    ensures forall i :: 0 <= i < |lines| ==> r[i] == RewriteLine(conv, settings, lines[i])
  {
    if |lines| == 0 then []
    else Rewritten(conv, settings, lines[..|lines| - 1]) + [RewriteLine(conv, settings, lines[|lines| - 1])]
  }

  /** update_settings_file: one output line per input line, in order. */
  method UpdateSettingsFile(conv: Conversions, newSettings: map<Key, Value>, lines: seq<string>)
    returns (written: seq<string>)
    ensures written == Rewritten(conv, newSettings, lines)
  {
    written := [];
    for i := 0 to |lines|
      invariant written == Rewritten(conv, newSettings, lines[..i])
    {
      assert lines[..i + 1][..i] == lines[..i];
      var line := lines[i];
      if StartsWith(line, "COLOR") && Color in newSettings {
        written := written + ["COLOR = " + Show(conv, newSettings[Color]) + "\n"];
      } else if StartsWith(line, "TIME_STEP") && TimeStep in newSettings {
        written := written + ["TIME_STEP = " + Show(conv, newSettings[TimeStep]) + "\n"];
      } else if StartsWith(line, "G =") && G in newSettings {
        written := written + ["G = " + Show(conv, newSettings[G]) + "\n"];
      } else if StartsWith(line, "LOG_TOGGLE") && LogToggle in newSettings {
        written := written + ["LOG_TOGGLE = " + Show(conv, newSettings[LogToggle]) + "\n"];
      } else if StartsWith(line, "RGB_TOGGLE") && RgbToggle in newSettings {
        written := written + ["RGB_TOGGLE = " + Show(conv, newSettings[RgbToggle]) + "\n"];
      } else {
        written := written + [line];
      }
    }
    assert lines[..|lines|] == lines;
  }

  /** With an empty map, settings.py is written back unchanged. */
  lemma RewriteEmptyMap(conv: Conversions, lines: seq<string>)
    ensures Rewritten(conv, map[], lines) == lines
  {
  }

  /** A setting line starts with the marker of its own key. */
  lemma SettingLineMarker(conv: Conversions, k: Key, v: Value)
    ensures StartsWith(SettingLine(conv, k, v), Marker(k))
  {
    var l := SettingLine(conv, k, v);
    assert l[..|Marker(k)|] == Marker(k);
  }

  /** Rewriting a rewritten line changes nothing. */
  lemma RewriteLineIdempotent(conv: Conversions, settings: map<Key, Value>, line: string)
    ensures RewriteLine(conv, settings, RewriteLine(conv, settings, line)) == RewriteLine(conv, settings, line)
  {
    if Replaces(settings, line).Some? {
      var k := Replaces(settings, line).value;
      SettingLineMarker(conv, k, settings[k]);
      ReplacesByMarker(settings, SettingLine(conv, k, settings[k]), k);
    }
  }

  /** Running the rewrite twice with the same map gives the same lines as
      running it once. The written strings are the lines of the next read
      when RewriteKeepsLines applies. */
  lemma RewriteIdempotent(conv: Conversions, settings: map<Key, Value>, lines: seq<string>)
    ensures Rewritten(conv, settings, Rewritten(conv, settings, lines)) == Rewritten(conv, settings, lines)
  {
    forall i | 0 <= i < |lines|
      ensures Rewritten(conv, settings, Rewritten(conv, settings, lines))[i] == Rewritten(conv, settings, lines)[i]
    {
      RewriteLineIdempotent(conv, settings, lines[i]);
    }
  }

  /** A line as `readlines()` returns it from a file opened in text mode:
      not empty, and with no line break before its last character. Universal
      newline mode ends a line at '\n', '\r' or "\r\n" and turns each of
      them into '\n', so a line holds no '\r'. */
  predicate IsLine(s: string)
  {
    |s| > 0 && forall i :: 0 <= i < |s| ==> s[i] != '\r' && (i < |s| - 1 ==> s[i] != '\n')
  }

  /** The string ends in a newline. */
  predicate EndsLine(s: string)
  {
    |s| > 0 && s[|s| - 1] == '\n'
  }

  /** The shape of what `readlines()` returns: every string is a line, and
      every one but the last ends in a newline. */
  predicate ReadLines(lines: seq<string>)
  {
    (forall i :: 0 <= i < |lines| ==> IsLine(lines[i])) &&
    (forall i :: 0 <= i < |lines| - 1 ==> EndsLine(lines[i]))
  }

  /** No value the map holds has a '\n' or a '\r' in its text. */
  predicate ShownOnOneLine(conv: Conversions, settings: map<Key, Value>)
  {
    forall k :: k in settings ==> '\n' !in Show(conv, settings[k]) && '\r' !in Show(conv, settings[k])
  }

  /** A name and a value without line breaks, then a newline, make one
      line that ends in a newline. */
  lemma JoinedLine(name: string, value: string)
    requires '\n' !in name && '\r' !in name && '\n' !in value && '\r' !in value
    ensures IsLine(name + value + "\n") && EndsLine(name + value + "\n")
  {
    var l := name + value + "\n";
    forall i | 0 <= i < |l|
      ensures l[i] != '\r' && (i < |l| - 1 ==> l[i] != '\n')
    {
      if i < |name| {
        assert l[i] == name[i];
      } else if i < |name| + |value| {
        assert l[i] == value[i - |name|];
      }
    }
  }

  /** A setting line of a value without line breaks is one line ending in a
      newline. */
  lemma SettingLineIsLine(conv: Conversions, k: Key, v: Value)
    requires '\n' !in Show(conv, v) && '\r' !in Show(conv, v)
    ensures IsLine(SettingLine(conv, k, v)) && EndsLine(SettingLine(conv, k, v))
  {
    match k
    case Color => JoinedLine("COLOR = ", Show(conv, v));
    case TimeStep => JoinedLine("TIME_STEP = ", Show(conv, v));
    case G => JoinedLine("G = ", Show(conv, v));
    case LogToggle => JoinedLine("LOG_TOGGLE = ", Show(conv, v));
    case RgbToggle => JoinedLine("RGB_TOGGLE = ", Show(conv, v));
  }

  /** When settings.py was read by `readlines()` and no shown value has a
      line break, the written strings again have the shape `readlines()`
      returns, so reading the file back gives exactly the written strings
      as its lines. */
  lemma RewriteKeepsLines(conv: Conversions, settings: map<Key, Value>, lines: seq<string>)
    requires ReadLines(lines)
    requires ShownOnOneLine(conv, settings)
    ensures ReadLines(Rewritten(conv, settings, lines))
  {
    var r := Rewritten(conv, settings, lines);
    forall i | 0 <= i < |lines|
      ensures IsLine(r[i]) && (i < |lines| - 1 ==> EndsLine(r[i]))
    {
      match Replaces(settings, lines[i])
      case None =>
      case Some(k) => SettingLineIsLine(conv, k, settings[k]);
    }
  }

  /** A colour whose text holds a '\n' or a '\r' is written as more than
      one line of text, so the next read of settings.py sees a line that is
      not a setting line. */
  lemma ShownLineBreakSplitsLine(conv: Conversions)
    ensures !IsLine(SettingLine(conv, Color, ColorValue("a\nb")))
    ensures !IsLine(SettingLine(conv, Color, ColorValue("a\rb")))
  {
    var l := SettingLine(conv, Color, ColorValue("a\nb"));
    assert l == "COLOR = a\nb\n";
    assert l[9] == '\n';
    var m := SettingLine(conv, Color, ColorValue("a\rb"));
    assert m == "COLOR = a\rb\n";
    assert m[9] == '\r';
  }

  /** The rewrite never adds a line for a key: if no line of settings.py
      starts with k's marker, no written line does either. */
  lemma RewriteAddsNoKey(conv: Conversions, settings: map<Key, Value>, lines: seq<string>, k: Key)
    requires forall i :: 0 <= i < |lines| ==> !StartsWith(lines[i], Marker(k))
    ensures forall i :: 0 <= i < |lines| ==> !StartsWith(Rewritten(conv, settings, lines)[i], Marker(k))
  {
    forall i | 0 <= i < |lines|
      ensures !StartsWith(Rewritten(conv, settings, lines)[i], Marker(k))
    {
      RewriteLineAddsNoKey(conv, settings, lines[i], k);
    }
  }

  /** One rewritten line starts with k's marker only if the line it
      replaces did. */
  lemma RewriteLineAddsNoKey(conv: Conversions, settings: map<Key, Value>, line: string, k: Key)
    requires !StartsWith(line, Marker(k))
    ensures !StartsWith(RewriteLine(conv, settings, line), Marker(k))
  {
    var r := RewriteLine(conv, settings, line);
    if Replaces(settings, line).Some? && StartsWith(r, Marker(k)) {
      var d := Replaces(settings, line).value;
      SettingLineMarker(conv, d, settings[d]);
      StartsWithFirst(r, Marker(k));
      StartsWithFirst(r, Marker(d));
      assert false;
    }
  }
}
