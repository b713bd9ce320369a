/**
 Quoting of the startup command: for a desktop entry, where key-file escaping lies
 over Exec quoting and field codes, and for a Windows command line. Each form is paired
 with the reader that undoes it.
 */
module StartupQuoting {
  import opened Text
  import opened Search

  // ---------------------------------------------------------------------------
  // Writing a desktop entry

  /** Rust's `replace` of a character by a text. */
  function Replace(s: string, c: char, text: string): string {
    if s == [] then [] else (if s[0] == c then text else [s[0]]) + Replace(s[1..], c, text)
  }

  /** The chain of replacements inside the quotes of an Exec argument. */
  function ExecBody(value: string): string {
    Replace(Replace(Replace(Replace(Replace(value, '%', "%%"), '\\', "\\\\"), '"', "\\\""), '`', "\\`"), '$', "\\$")
  }

  function ExecArgument(value: string): string {
    "\"" + ExecBody(value) + "\""
  }

  function KeyfileEscape(value: string): string {
    Replace(value, '\\', "\\\\")
  }

  function JoinSpaces(parts: seq<string>): string {
    if parts == [] then [] else if |parts| == 1 then parts[0] else parts[0] + " " + JoinSpaces(parts[1..])
  }

  function Map(f: string -> string, values: seq<string>): seq<string> {
    if values == [] then [] else [f(values[0])] + Map(f, values[1..])
  }

  function ExecValue(args: seq<string>): string {
    KeyfileEscape(JoinSpaces(Map(ExecArgument, args)))
  }

  // ---------------------------------------------------------------------------
  // Reading it, by the Desktop Entry Specification

  /** Undoes key-file escapes (section "Possible value types"). */
  function KeyfileUnescape(s: string): Option<string> {
    if s == [] then Some([])
    else if s[0] != '\\' then Prepend(s[0], KeyfileUnescape(s[1..]))
    else if |s| == 1 then None
    else
      match s[1]
      case 's' => Prepend(' ', KeyfileUnescape(s[2..]))
      case 'n' => Prepend('\n', KeyfileUnescape(s[2..]))
      case 't' => Prepend('\t', KeyfileUnescape(s[2..]))
      case 'r' => Prepend('\r', KeyfileUnescape(s[2..]))
      case '\\' => Prepend('\\', KeyfileUnescape(s[2..]))
      case _ => None
  }

  function Prepend(c: char, rest: Option<string>): Option<string> {
    if rest.None? then None else Some([c] + rest.value)
  }

  predicate NeedsBackslash(c: char) {
    c == '"' || c == '`' || c == '$' || c == '\\'
  }

  /** The text up to the closing quote, and what follows it (section "The Exec key"). */
  function Unquote(s: string): Option<(string, string)> {
    if s == [] then None
    else if s[0] == '"' then Some(([], s[1..]))
    else if s[0] == '\\' then
      if |s| == 1 || !NeedsBackslash(s[1]) then None else PrependArg(s[1], Unquote(s[2..]))
    else if NeedsBackslash(s[0]) then None
    else PrependArg(s[0], Unquote(s[1..]))
  }

  function PrependArg(c: char, rest: Option<(string, string)>): Option<(string, string)> {
    if rest.None? then None else Some(([c] + rest.value.0, rest.value.1))
  }

  /** Expands field codes; only the doubled percent sign stands for itself. */
  function ExpandCodes(s: string): Option<string> {
    if s == [] then Some([])
    else if s[0] != '%' then Prepend(s[0], ExpandCodes(s[1..]))
    else if |s| == 1 || s[1] != '%' then None
    else Prepend('%', ExpandCodes(s[2..]))
  }

  /** The arguments of an Exec value whose arguments are all quoted. */
  function ReadExec(s: string): Option<seq<string>>
    decreases |s|
  {
    if s == [] then Some([])
    else if s[0] != '"' then None
    else
      var quoted := Unquote(s[1..]);
      if quoted.None? then None
      else
        var (text, rest) := quoted.value;
        var arg := ExpandCodes(text);
        if arg.None? || |rest| >= |s| then None
        else if rest == [] then Some([arg.value])
        else if rest[0] != ' ' || rest == " " then None
        else
          var more := ReadExec(rest[1..]);
          if more.None? then None else Some([arg.value] + more.value)
  }

  // ---------------------------------------------------------------------------
  // The layers undo each other

  lemma {:induction false} ReplaceParts(a: string, b: string, c: char, text: string)
    ensures Replace(a + b, c, text) == Replace(a, c, text) + Replace(b, c, text)
    decreases |a|
  {
    if a == [] {
      assert a + b == b;
    } else {
      assert (a + b)[1..] == a[1..] + b;
      ReplaceParts(a[1..], b, c, text);
    }
  }

  lemma {:induction false} KeyfileRoundTrip(s: string)
    ensures KeyfileUnescape(KeyfileEscape(s)) == Some(s)
    decreases |s|
  {
    if s != [] {
      KeyfileRoundTrip(s[1..]);
      assert s == [s[0]] + s[1..];
      var rest := KeyfileEscape(s[1..]);
      if s[0] == '\\' {
        assert ("\\\\" + rest)[2..] == rest;
      } else {
        assert ([s[0]] + rest)[1..] == rest;
      }
    }
  }

  function DoublePercent(value: string): string {
    Replace(value, '%', "%%")
  }

  lemma {:induction false} CodesRoundTrip(s: string)
    ensures ExpandCodes(DoublePercent(s)) == Some(s)
    decreases |s|
  {
    if s != [] {
      CodesRoundTrip(s[1..]);
      assert s == [s[0]] + s[1..];
      var rest := DoublePercent(s[1..]);
      if s[0] == '%' {
        assert ("%%" + rest)[2..] == rest;
      } else {
        assert ([s[0]] + rest)[1..] == rest;
      }
    }
  }

  /** The four replacements after the percent signs. */
  function Backslashed(value: string): string {
    Replace(Replace(Replace(Replace(value, '\\', "\\\\"), '"', "\\\""), '`', "\\`"), '$', "\\$")
  }

  /** One pass over the text that does what the chain does. */
  function Escaped(c: char): string {
    if NeedsBackslash(c) then ['\\', c] else [c]
  }

  lemma BackslashedChar(c: char)
    ensures Backslashed([c]) == Escaped(c)
  {
    One(c, '\\', "\\\\");
    if c == '\\' {
      Two('\\', '\\', '"', "\\\"");
      Two('\\', '\\', '`', "\\`");
      Two('\\', '\\', '$', "\\$");
    } else {
      One(c, '"', "\\\"");
      if c == '"' {
        Two('\\', '"', '`', "\\`");
        Two('\\', '"', '$', "\\$");
      } else {
        One(c, '`', "\\`");
        if c == '`' {
          Two('\\', '`', '$', "\\$");
        } else {
          One(c, '$', "\\$");
        }
      }
    }
  }

  lemma One(c: char, target: char, text: string)
    ensures Replace([c], target, text) == if c == target then text else [c]
  {
    assert [c][1..] == [] && text + [] == text;
  }

  lemma Two(a: char, b: char, target: char, text: string)
    requires a != target && b != target
    ensures Replace([a, b], target, text) == [a, b]
  {
    assert [a, b][1..] == [b];
    One(b, target, text);
  }

  lemma BackslashedParts(a: string, b: string)
    ensures Backslashed(a + b) == Backslashed(a) + Backslashed(b)
  {
    ReplaceParts(a, b, '\\', "\\\\");
    var a1, b1 := Replace(a, '\\', "\\\\"), Replace(b, '\\', "\\\\");
    ReplaceParts(a1, b1, '"', "\\\"");
    var a2, b2 := Replace(a1, '"', "\\\""), Replace(b1, '"', "\\\"");
    ReplaceParts(a2, b2, '`', "\\`");
    ReplaceParts(Replace(a2, '`', "\\`"), Replace(b2, '`', "\\`"), '$', "\\$");
  }

  lemma {:induction false} UnquoteRoundTrip(s: string, after: string)
    ensures Unquote(Backslashed(s) + "\"" + after) == Some((s, after))
    decreases |s|
  {
    if s == [] {
      assert (Backslashed(s) + "\"" + after)[1..] == after;
    } else {
      var c, rest := s[0], Backslashed(s[1..]);
      UnquoteRoundTrip(s[1..], after);
      assert s == [c] + s[1..];
      BackslashedParts([c], s[1..]);
      BackslashedChar(c);
      UnquoteChar(c, rest + "\"" + after);
      RegroupFour(Escaped(c), rest, "\"", after);
    }
  }

  lemma UnquoteChar(c: char, rest: string)
    ensures Unquote(Escaped(c) + rest) == PrependArg(c, Unquote(rest))
  {
    if NeedsBackslash(c) {
      assert (['\\', c] + rest)[2..] == rest;
    } else {
      assert ([c] + rest)[1..] == rest;
    }
  }

  lemma ArgumentReads(arg: string, after: string)
    ensures ExecArgument(arg) + after == "\"" + (Backslashed(DoublePercent(arg)) + "\"" + after)
    ensures Unquote((ExecArgument(arg) + after)[1..]) == Some((DoublePercent(arg), after))
    ensures ExpandCodes(DoublePercent(arg)) == Some(arg)
  {
    var body := Backslashed(DoublePercent(arg));
    assert ExecBody(arg) == body;
    assert ExecArgument(arg) + after == "\"" + (body + "\"" + after);
    assert ("\"" + (body + "\"" + after))[1..] == body + "\"" + after;
    UnquoteRoundTrip(DoublePercent(arg), after);
    CodesRoundTrip(arg);
  }

  lemma JoinCons(part: string, parts: seq<string>)
    ensures JoinSpaces([part] + parts) == if parts == [] then part else part + (" " + JoinSpaces(parts))
  {
    assert ([part] + parts)[1..] == parts;
    if parts != [] {
      assert part + " " + JoinSpaces(parts) == part + (" " + JoinSpaces(parts));
    }
  }

  lemma ReadOne(arg: string)
    ensures ReadExec(ExecArgument(arg)) == Some([arg]) && ExecArgument(arg) != []
  {
    ArgumentReads(arg, "");
    assert ExecArgument(arg) + "" == ExecArgument(arg);
  }

  lemma ReadNext(arg: string, rest: string, args: seq<string>)
    requires ReadExec(rest) == Some(args) && rest != []
    ensures ReadExec(ExecArgument(arg) + (" " + rest)) == Some([arg] + args)
  {
    ArgumentReads(arg, " " + rest);
    assert (" " + rest)[1..] == rest;
  }

  lemma {:induction false} ExecRoundTrip(args: seq<string>)
    ensures ReadExec(JoinSpaces(Map(ExecArgument, args))) == Some(args)
    ensures args != [] ==> JoinSpaces(Map(ExecArgument, args)) != []
    decreases |args|
  {
    if args != [] {
      var rest := JoinSpaces(Map(ExecArgument, args[1..]));
      ExecRoundTrip(args[1..]);
      JoinCons(ExecArgument(args[0]), Map(ExecArgument, args[1..]));
      ReadOne(args[0]);
      if |args| == 1 {
        assert args == [args[0]];
      } else {
        ReadNext(args[0], rest, args[1..]);
        assert args == [args[0]] + args[1..];
      }
    }
  }

  /** Undoing the key-file escapes, the quotes and the percent signs recovers every argument list. */
  lemma DesktopRoundTrip(args: seq<string>)
    ensures
      var command := KeyfileUnescape(ExecValue(args));
      command.Some? && ReadExec(command.value) == Some(args)
  {
    KeyfileRoundTrip(JoinSpaces(Map(ExecArgument, args)));
    ExecRoundTrip(args);
  }

  // ---------------------------------------------------------------------------
  // The line in the file

  const COMMENT := "Comment=Start rsproxy" + " and restore system" + " proxy routing"

  const BEFORE := ["[Desktop Entry]", "Type=Application", "Version=1.0", "Name=rsproxy", COMMENT]

  const AFTER := ["Terminal=false", "NoDisplay=true", "X-GNOME-Autostart-enabled=true"]

  function DesktopEntry(args: seq<string>): string {
    EndLines(BEFORE + ["Exec=" + ExecValue(args)] + AFTER)
  }

  /** The value of the first line that has the key. */
  function ValueOf(text: string, key: string): Option<string>
    decreases |text|
  {
    if text == [] then None
    else
      var end := Find(text, IsLineFeed);
      if key <= text[..end] then Some(text[..end][|key|..])
      else if end == |text| then None
      else ValueOf(text[end + 1..], key)
  }

  /** The value is what follows the key up to the first line feed, whatever comes then. */
  lemma {:induction false} ValueIsFound(before: seq<string>, value: string, rest: string, key: string)
    requires forall i :: 0 <= i < |before| ==> '\n' !in before[i] && !(key <= before[i])
    requires '\n' !in key && '\n' !in value
    ensures ValueOf(EndLines(before) + (key + value + "\n" + rest), key) == Some(value)
    decreases |before|
  {
    var tail := key + value + "\n" + rest;
    if before == [] {
      assert [] + tail == tail;
      LineComesFirst(key + value, rest);
      assert (key + value)[|key|..] == value;
    } else {
      var line, more := before[0], EndLines(before[1..]);
      ValueIsFound(before[1..], value, rest, key);
      LineComesFirst(line, more + tail);
      Regroup(line + "\n", more, tail);
    }
  }

  lemma {:induction false} EndLinesAppend(a: seq<string>, b: seq<string>)
    ensures EndLines(a + b) == EndLines(a) + EndLines(b)
    decreases |a|
  {
    if a == [] {
      assert a + b == b;
    } else {
      EndLinesAppend(a[1..], b);
      assert (a + b)[1..] == a[1..] + b;
      Regroup(a[0] + "\n", EndLines(a[1..]), EndLines(b));
    }
  }

  predicate OnOneLine(args: seq<string>) {
    forall i :: 0 <= i < |args| ==> '\n' !in args[i]
  }

  lemma {:induction false} ReplaceKeepsLine(s: string, c: char, text: string)
    requires '\n' !in s && '\n' !in text
    ensures '\n' !in Replace(s, c, text)
    decreases |s|
  {
    if s != [] {
      ReplaceKeepsLine(s[1..], c, text);
    }
  }

  lemma ArgumentIsOnOneLine(arg: string)
    requires '\n' !in arg
    ensures '\n' !in ExecArgument(arg)
  {
    ReplaceKeepsLine(arg, '%', "%%");
    var a1 := Replace(arg, '%', "%%");
    ReplaceKeepsLine(a1, '\\', "\\\\");
    var a2 := Replace(a1, '\\', "\\\\");
    ReplaceKeepsLine(a2, '"', "\\\"");
    var a3 := Replace(a2, '"', "\\\"");
    ReplaceKeepsLine(a3, '`', "\\`");
    ReplaceKeepsLine(Replace(a3, '`', "\\`"), '$', "\\$");
  }

  lemma {:induction false} CommandIsOnOneLine(args: seq<string>)
    requires OnOneLine(args)
    ensures '\n' !in JoinSpaces(Map(ExecArgument, args))
    decreases |args|
  {
    if args != [] {
      ArgumentIsOnOneLine(args[0]);
      CommandIsOnOneLine(args[1..]);
      JoinCons(ExecArgument(args[0]), Map(ExecArgument, args[1..]));
    }
  }

  predicate IsOtherLine(line: string) {
    '\n' !in line && !("Exec=" <= line)
  }

  lemma StartsOtherwise(line: string)
    requires '\n' !in line && line != [] && line[0] != 'E'
    ensures IsOtherLine(line)
  {
    assert "Exec="[0] == 'E';
  }

  lemma CommentStartsOtherwise()
    ensures IsOtherLine(COMMENT)
  {
    assert '\n' !in "Comment=Start rsproxy";
    assert '\n' !in " and restore system";
    assert '\n' !in " proxy routing";
    assert COMMENT[0] == "Comment=Start rsproxy"[0];
    StartsOtherwise(COMMENT);
  }

  lemma OtherLinesHaveNoCommand()
    ensures forall i :: 0 <= i < |BEFORE| ==> IsOtherLine(BEFORE[i])
  {
    StartsOtherwise("[Desktop Entry]");
    StartsOtherwise("Type=Application");
    StartsOtherwise("Version=1.0");
    StartsOtherwise("Name=rsproxy");
    CommentStartsOtherwise();
  }

  /** The entry up to the command, and the command with what follows. */
  lemma EntryParts(args: seq<string>)
    ensures DesktopEntry(args) == EndLines(BEFORE) + ("Exec=" + ExecValue(args) + "\n" + EndLines(AFTER))
  {
    var line := "Exec=" + ExecValue(args);
    EndLinesAppend(BEFORE + [line], AFTER);
    EndLinesAppend(BEFORE, [line]);
    assert EndLines([line]) == line + "\n";
    Regroup(EndLines(BEFORE), line + "\n", EndLines(AFTER));
  }

  /** Reading the rendered file gives the arguments back. */
  predicate IsRecovered(args: seq<string>) {
    var value := ValueOf(DesktopEntry(args), "Exec=");
    && value.Some? && KeyfileUnescape(value.value).Some?
    && ReadExec(KeyfileUnescape(value.value).value) == Some(args)
  }

  lemma OneLineIsRecovered(args: seq<string>)
    requires OnOneLine(args)
    ensures IsRecovered(args)
  {
    CommandIsOnOneLine(args);
    ReplaceKeepsLine(JoinSpaces(Map(ExecArgument, args)), '\\', "\\\\");
    OtherLinesHaveNoCommand();
    EntryParts(args);
    ValueIsFound(BEFORE, ExecValue(args), EndLines(AFTER), "Exec=");
    DesktopRoundTrip(args);
  }

  // What is lost at a line feed.

  lemma {:induction false} ReplaceKeepsLineFeed(s: string, c: char, text: string)
    requires '\n' in s && c != '\n'
    ensures '\n' in Replace(s, c, text)
    decreases |s|
  {
    if s[0] != '\n' {
      ReplaceKeepsLineFeed(s[1..], c, text);
    }
  }

  lemma ArgumentKeepsLineFeed(arg: string)
    requires '\n' in arg
    ensures '\n' in ExecArgument(arg)
  {
    ReplaceKeepsLineFeed(arg, '%', "%%");
    var a1 := Replace(arg, '%', "%%");
    ReplaceKeepsLineFeed(a1, '\\', "\\\\");
    var a2 := Replace(a1, '\\', "\\\\");
    ReplaceKeepsLineFeed(a2, '"', "\\\"");
    var a3 := Replace(a2, '"', "\\\"");
    ReplaceKeepsLineFeed(a3, '`', "\\`");
    ReplaceKeepsLineFeed(Replace(a3, '`', "\\`"), '$', "\\$");
  }

  lemma {:induction false} CommandKeepsLineFeed(args: seq<string>)
    requires !OnOneLine(args)
    ensures '\n' in JoinSpaces(Map(ExecArgument, args))
    decreases |args|
  {
    JoinCons(ExecArgument(args[0]), Map(ExecArgument, args[1..]));
    if '\n' in args[0] {
      ArgumentKeepsLineFeed(args[0]);
    } else {
      CommandKeepsLineFeed(args[1..]);
    }
  }

  lemma EscapeIsCut(command: string, k: nat)
    requires k < |command| && command[k] == '\n'
    ensures KeyfileEscape(command) == KeyfileEscape(command[..k]) + ("\n" + KeyfileEscape(command[k + 1..]))
  {
    var back := "\n" + command[k + 1..];
    assert command == command[..k] + back && back[1..] == command[k + 1..];
    ReplaceParts(command[..k], back, '\\', "\\\\");
  }

  lemma LineIsCut(key: string, front: string, back: string, rest: string)
    ensures key + (front + ("\n" + back)) + "\n" + rest == key + front + "\n" + (back + "\n" + rest)
  {
  }

  /** A value with a line feed is read up to the first one. */
  lemma ValueIsCut(command: string, k: nat, rest: string)
    requires k < |command| && command[k] == '\n' && '\n' !in command[..k]
    ensures ValueOf(EndLines(BEFORE) + ("Exec=" + KeyfileEscape(command) + "\n" + rest), "Exec=")
         == Some(KeyfileEscape(command[..k]))
  {
    var front, back := KeyfileEscape(command[..k]), KeyfileEscape(command[k + 1..]);
    EscapeIsCut(command, k);
    LineIsCut("Exec=", front, back, rest);
    ReplaceKeepsLine(command[..k], '\\', "\\\\");
    OtherLinesHaveNoCommand();
    ValueIsFound(BEFORE, front, back + "\n" + rest, "Exec=");
  }

  lemma {:induction false} UnquoteKeepsLine(s: string)
    requires '\n' !in s && Unquote(s).Some?
    ensures '\n' !in Unquote(s).value.0 && '\n' !in Unquote(s).value.1
    decreases |s|
  {
    if s[0] == '\\' {
      UnquoteKeepsLine(s[2..]);
    } else if s[0] != '"' {
      UnquoteKeepsLine(s[1..]);
    }
  }

  lemma {:induction false} ExpandKeepsLine(s: string)
    requires '\n' !in s && ExpandCodes(s).Some?
    ensures '\n' !in ExpandCodes(s).value
    decreases |s|
  {
    if s != [] {
      ExpandKeepsLine(if s[0] != '%' then s[1..] else s[2..]);
    }
  }

  /** From text without line feeds, no argument with one is read. */
  lemma {:induction false} ReadExecKeepsLine(s: string)
    requires '\n' !in s && ReadExec(s).Some?
    ensures OnOneLine(ReadExec(s).value)
    decreases |s|
  {
    if s != [] {
      UnquoteKeepsLine(s[1..]);
      var (text, rest) := Unquote(s[1..]).value;
      ExpandKeepsLine(text);
      if rest != [] {
        ReadExecKeepsLine(rest[1..]);
      }
    }
  }

  lemma LineFeedIsNotRecovered(args: seq<string>)
    requires !OnOneLine(args)
    ensures !IsRecovered(args)
  {
    var command := JoinSpaces(Map(ExecArgument, args));
    CommandKeepsLineFeed(args);
    var k := Find(command, IsLineFeed);
    EntryParts(args);
    ValueIsCut(command, k, EndLines(AFTER));
    KeyfileRoundTrip(command[..k]);
    if IsRecovered(args) {
      ReadExecKeepsLine(command[..k]);
    }
  }

  /** The rendered file leads back to exactly the argument lists without line feeds. */
  lemma DesktopEntryRoundTrip(args: seq<string>)
    ensures IsRecovered(args) <==> OnOneLine(args)
  {
    if OnOneLine(args) {
      OneLineIsRecovered(args);
    } else {
      LineFeedIsNotRecovered(args);
    }
  }

  // ---------------------------------------------------------------------------
  // Windows

  function Backslashes(n: nat): string {
    seq(n, _ => '\\')
  }

  /** The rest of a quoted argument when `n` backslashes are pending. */
  function QuotedRest(value: string, n: nat): string {
    if value == [] then Backslashes(2 * n) + "\""
    else if value[0] == '\\' then QuotedRest(value[1..], n + 1)
    else if value[0] == '"' then Backslashes(2 * n + 1) + "\"" + QuotedRest(value[1..], 0)
    else Backslashes(n) + [value[0]] + QuotedRest(value[1..], 0)
  }

  function QuotedArgument(value: string): string {
    "\"" + QuotedRest(value, 0)
  }

  method QuoteArgument(value: string) returns (quoted: string)
    ensures quoted == QuotedArgument(value)
  {
    quoted := "\"";
    var backslashes := 0;
    for i := 0 to |value|
      invariant quoted + QuotedRest(value[i..], backslashes) == QuotedArgument(value)
    {
      ghost var before, rest := quoted, value[i + 1..];
      assert value[i..][0] == value[i] && value[i..][1..] == rest;
      if value[i] == '\\' {
        backslashes := backslashes + 1;
      } else if value[i] == '"' {
        quoted := quoted + Backslashes(backslashes * 2 + 1) + "\"";
        RegroupFour(before, Backslashes(backslashes * 2 + 1), "\"", QuotedRest(rest, 0));
        backslashes := 0;
      } else {
        quoted := quoted + Backslashes(backslashes) + [value[i]];
        RegroupFour(before, Backslashes(backslashes), [value[i]], QuotedRest(rest, 0));
        backslashes := 0;
      }
    }
    ghost var before := quoted;
    assert value[|value|..] == [];
    quoted := quoted + Backslashes(backslashes * 2) + "\"";
    RegroupFour(before, Backslashes(backslashes * 2), "\"", "");
  }

  function CommandLine(args: seq<string>): string {
    JoinSpaces(Map(QuotedArgument, args))
  }

  predicate IsBlank(c: char) {
    c == ' ' || c == '\t'
  }

  /**
   The backslash-and-quote rules: reads one argument, with what is read so far, the
   backslashes pending, and whether a quote is open; also gives what follows.
   */
  function Scan(s: string, so: string, n: nat, quoted: bool): (r: (string, string))
    ensures |r.1| <= |s|
    ensures s != [] && (quoted || !IsBlank(s[0])) ==> |r.1| < |s|
    decreases |s|
  {
    if s == [] then (so + Backslashes(n), [])
    else if s[0] == '\\' then Scan(s[1..], so, n + 1, quoted)
    else if s[0] == '"' then
      if n % 2 == 1 then Scan(s[1..], so + Backslashes(n / 2) + "\"", 0, quoted)
      else if quoted && |s| > 1 && s[1] == '"' then Scan(s[2..], so + Backslashes(n / 2) + "\"", 0, quoted)
      else Scan(s[1..], so + Backslashes(n / 2), 0, !quoted)
    else if IsBlank(s[0]) && !quoted then (so + Backslashes(n), s)
    else Scan(s[1..], so + Backslashes(n) + [s[0]], 0, quoted)
  }

  function ReadCommandLine(s: string): seq<string>
    decreases |s|
  {
    if s == [] then []
    else if IsBlank(s[0]) then ReadCommandLine(s[1..])
    else
      var (arg, rest) := Scan(s, [], 0, false);
      [arg] + ReadCommandLine(rest)
  }

  lemma {:induction false} ScanBackslashes(k: nat, s: string, so: string, n: nat, quoted: bool)
    ensures Scan(Backslashes(k) + s, so, n, quoted) == Scan(s, so, n + k, quoted)
    decreases k
  {
    if k == 0 {
      assert Backslashes(0) + s == s;
    } else {
      assert (Backslashes(k) + s)[1..] == Backslashes(k - 1) + s;
      ScanBackslashes(k - 1, s, so, n + 1, quoted);
    }
  }

  /** Inside quotes, the rest of a quoted argument adds the pending backslashes and the value, and closes them. */
  lemma {:induction false} ScanQuoted(value: string, n: nat, so: string, after: string)
    requires after == [] || after[0] != '"'
    ensures Scan(QuotedRest(value, n) + after, so, 0, true) == Scan(after, so + Backslashes(n) + value, 0, false)
    decreases |value|
  {
    if value == [] {
      QuoteCloses(n, so, after);
      assert so + Backslashes(n) + [] == so + Backslashes(n);
    } else {
      var c, rest := value[0], value[1..];
      assert value == [c] + rest;
      if c == '\\' {
        ScanQuoted(rest, n + 1, so, after);
        assert Backslashes(n + 1) == Backslashes(n) + [c];
        assert so + (Backslashes(n) + [c]) + rest == so + Backslashes(n) + ([c] + rest);
      } else {
        CharIsRead(c, n, so, QuotedRest(rest, 0) + after);
        ScanQuoted(rest, 0, so + Backslashes(n) + [c], after);
        Joins(so + Backslashes(n), [c], rest);
        Tail(if c == '"' then Backslashes(2 * n + 1) else Backslashes(n), [c], QuotedRest(rest, 0), after);
      }
    }
  }

  lemma Tail(a: string, b: string, c: string, d: string)
    ensures a + b + c + d == a + b + (c + d)
  {
  }

  lemma Joins(a: string, b: string, c: string)
    ensures a + b + Backslashes(0) + c == a + (b + c)
  {
  }

  lemma QuoteCloses(n: nat, so: string, after: string)
    requires after == [] || after[0] != '"'
    ensures Scan(Backslashes(2 * n) + "\"" + after, so, 0, true) == Scan(after, so + Backslashes(n), 0, false)
  {
    assert Backslashes(2 * n) + "\"" + after == Backslashes(2 * n) + ("\"" + after);
    ScanBackslashes(2 * n, "\"" + after, so, 0, true);
    assert ("\"" + after)[1..] == after;
  }

  lemma CharIsRead(c: char, n: nat, so: string, after: string)
    requires c != '\\'
    ensures Scan((if c == '"' then Backslashes(2 * n + 1) else Backslashes(n)) + [c] + after, so, 0, true)
         == Scan(after, so + Backslashes(n) + [c], 0, true)
  {
    var k := if c == '"' then 2 * n + 1 else n;
    assert Backslashes(k) + [c] + after == Backslashes(k) + ([c] + after);
    ScanBackslashes(k, [c] + after, so, 0, true);
    assert ([c] + after)[1..] == after;
  }

  lemma ArgumentScans(arg: string, after: string)
    requires after == [] || IsBlank(after[0])
    ensures Scan(QuotedArgument(arg) + after, [], 0, false) == (arg, after)
  {
    var body := QuotedRest(arg, 0) + after;
    assert QuotedArgument(arg) + after == "\"" + body;
    assert ("\"" + body)[1..] == body;
    ScanQuoted(arg, 0, [], after);
    assert [] + Backslashes(0) + arg == arg;
    assert [] + Backslashes(0) == [];
    assert arg + Backslashes(0) == arg;
  }

  /** The Windows argument rules recover every argument list from its command line. */
  lemma {:induction false} WindowsRoundTrip(args: seq<string>)
    ensures ReadCommandLine(CommandLine(args)) == args
    decreases |args|
  {
    if args != [] {
      var rest := CommandLine(args[1..]);
      WindowsRoundTrip(args[1..]);
      JoinCons(QuotedArgument(args[0]), Map(QuotedArgument, args[1..]));
      assert args == [args[0]] + args[1..];
      if |args| == 1 {
        ArgumentScans(args[0], "");
        assert QuotedArgument(args[0]) + "" == QuotedArgument(args[0]);
      } else {
        ArgumentScans(args[0], " " + rest);
        assert (" " + rest)[1..] == rest;
      }
    }
  }
}
