/**
 * Process definition files: the printer, the line parser, and the splitting of a startup file
 * into blocks.
 */
module PrcFile {
  datatype Definition = Definition(name: string, path: string, args: seq<string>, onReboot: bool)

  const BLANK := Definition("", "", [], false)

  /* ---------- String helpers ---------- */

  predicate IsSpace(c: char) {
    c == ' ' || c == '\t' || c == '\n' || c == '\r' || c == 11 as char || c == 12 as char
  }

  function TrimStart(s: string): string {
    if |s| > 0 && IsSpace(s[0]) then TrimStart(s[1..]) else s
  }

  function TrimEnd(s: string): string {
    if |s| > 0 && IsSpace(s[|s| - 1]) then TrimEnd(s[..|s| - 1]) else s
  }

  function Trim(s: string): string {
    TrimEnd(TrimStart(s))
  }

  /** The first occurrence of a character, or the length. */
  function Find(s: string, c: char): (i: nat)
    ensures i <= |s| && (i < |s| ==> s[i] == c)
    ensures forall k :: 0 <= k < i ==> s[k] != c
  {
    if |s| == 0 || s[0] == c then 0 else 1 + Find(s[1..], c)
  }

  predicate StartsWith(s: string, prefix: string) {
    |prefix| <= |s| && s[..|prefix|] == prefix
  }

  /** The lines getline yields; a final newline adds none. */
  function Lines(s: string): seq<string>
    decreases |s|
  {
    if |s| == 0 then []
    else
      var i := Find(s, '\n');
      if i == |s| then [s] else [s[..i]] + Lines(s[i + 1..])
  }

  /* ---------- Parsing ---------- */

  function ExtractQuoted(s: string): string {
    var first := Find(s, '"');
    if first == |s| then Trim(s)
    else
      var rest := s[first + 1..];
      rest[..Find(rest, '"')]
  }

  /** The argument scanner: quotes delimit arguments, empty ones are dropped, commas and
      semicolons count only outside quotes. */
  function ScanArgs(s: string, args: seq<string>, inQuote: bool, current: string): seq<string>
    decreases |s|
  {
    if |s| == 0 || (s[0] == ';' && !inQuote) then
      if |current| > 0 then args + [current] else args
    else if s[0] == '"' then
      if inQuote then
        if |current| > 0 then ScanArgs(s[1..], args + [current], false, "")
        else ScanArgs(s[1..], args, false, current)
      else ScanArgs(s[1..], args, true, current)
    else if inQuote then ScanArgs(s[1..], args, true, current + [s[0]])
    else ScanArgs(s[1..], args, false, current)
  }

  function ParseFlag(s: string): bool {
    var v := Trim(s);
    var w := Trim(if |v| > 0 && v[|v| - 1] == ';' then v[..|v| - 1] else v);
    w == "true" || w == "1" || w == "yes"
  }

  function ParseLine(def: Definition, raw: string): Definition {
    var line := Trim(raw);
    if |line| == 0 then def
    else if line[|line| - 1] == ':' && line[0] == '[' then
      var end := Find(line, ']');
      if end < |line| then def.(name := line[1..end]) else def
    else if StartsWith(line, "Path:") then def.(path := ExtractQuoted(line[5..]))
    else if StartsWith(line, "Args:") then def.(args := ScanArgs(line[5..], [], false, ""))
    else if StartsWith(line, "onReboot:") then def.(onReboot := ParseFlag(line[9..]))
    else def
  }

  function ParseLines(def: Definition, lines: seq<string>): Definition
    decreases |lines|
  {
    if |lines| == 0 then def else ParseLines(ParseLine(def, lines[0]), lines[1..])
  }

  function Parse(content: string): Definition {
    ParseLines(BLANK, Lines(content))
  }

  /* ---------- Printing ---------- */

  function Quoted(s: string): string {
    "\"" + s + "\""
  }

  function ArgsText(args: seq<string>): string {
    if |args| == 0 then ""
    else if |args| == 1 then Quoted(args[0])
    else Quoted(args[0]) + ", " + ArgsText(args[1..])
  }

  function NameLine(def: Definition): string { "[" + def.name + "]:" }

  function PathLine(def: Definition): string { "Path: " + Quoted(def.path) + ";" }

  function ArgsLine(def: Definition): string { "Args: " + ArgsText(def.args) + ";" }

  function RebootLine(def: Definition): string {
    "onReboot: " + (if def.onReboot then "true" else "false") + ";"
  }

  function Serialize(def: Definition): string {
    NameLine(def) + "\n"
    + ("    " + PathLine(def) + "\n"
    + ("    " + ArgsLine(def) + "\n"
    + ("    " + RebootLine(def) + "\n"
    + (".\n"))))
  }

  /* ---------- Round trip ---------- */

  predicate Lacks(s: string, c: char) {
    forall i :: 0 <= i < |s| ==> s[i] != c
  }

  /** What the format can carry: single-line fields, no ']' in the name, no quote in path or
      arguments, no empty argument. Commas and semicolons are fine. */
  predicate Printable(def: Definition) {
    && Lacks(def.name, '\n') && Lacks(def.name, ']')
    && Lacks(def.path, '\n') && Lacks(def.path, '"')
    && forall i :: 0 <= i < |def.args| ==>
         |def.args[i]| > 0 && Lacks(def.args[i], '\n') && Lacks(def.args[i], '"')
  }

  lemma FindIs(s: string, c: char, i: nat)
    requires i <= |s| && (i < |s| ==> s[i] == c) && forall k :: 0 <= k < i ==> s[k] != c
    ensures Find(s, c) == i
  {
    var j := Find(s, c);
  }

  /** A newline ends a line. */
  lemma LinesCons(line: string, rest: string)
    requires Lacks(line, '\n')
    ensures Lines(line + "\n" + rest) == [line] + Lines(rest)
  {
    var s := line + "\n" + rest;
    FindIs(s, '\n', |line|);
    assert s[..|line|] == line && s[|line| + 1..] == rest;
  }

  lemma TrimStartSpace(s: string)
    ensures TrimStart(" " + s) == TrimStart(s)
  {
    assert (" " + s)[1..] == s;
  }

  lemma TrimSolid(s: string)
    requires |s| > 0 && !IsSpace(s[0]) && !IsSpace(s[|s| - 1])
    ensures Trim(s) == s && Trim("    " + s) == s && Trim(" " + s) == s
  {
    assert TrimEnd(s) == s && TrimStart(s) == s;
    hide TrimStart, TrimEnd, IsSpace;
    TrimStartSpace(s);
    TrimStartSpace(" " + s);
    TrimStartSpace(" " + (" " + s));
    TrimStartSpace(" " + (" " + (" " + s)));
    assert "    " + s == " " + (" " + (" " + (" " + s)));
  }

  lemma {:induction false} ScanQuoted(a: string, rest: string, args: seq<string>, current: string)
    requires Lacks(a, '"') && |current + a| > 0
    ensures ScanArgs(a + "\"" + rest, args, true, current) == ScanArgs(rest, args + [current + a], false, "")
    decreases |a|
  {
    var s := a + "\"" + rest;
    if |a| == 0 {
      assert s[1..] == rest && current + a == current;
    } else {
      assert s[1..] == a[1..] + "\"" + rest;
      assert current + [a[0]] + a[1..] == current + a;
      ScanQuoted(a[1..], rest, args, current + [a[0]]);
    }
  }

  lemma ScanArg(a: string, rest: string, args: seq<string>)
    requires Lacks(a, '"') && |a| > 0
    ensures ScanArgs(Quoted(a) + rest, args, false, "") == ScanArgs(rest, args + [a], false, "")
  {
    var s := Quoted(a) + rest;
    assert s[1..] == a + "\"" + rest;
    ScanQuoted(a, rest, args, "");
    assert "" + a == a;
  }

  lemma ScanComma(rest: string, args: seq<string>)
    ensures ScanArgs(", " + rest, args, false, "") == ScanArgs(rest, args, false, "")
  {
    assert (", " + rest)[1..] == " " + rest && (" " + rest)[1..] == rest;
  }

  lemma ArgsTextCons(args: seq<string>)
    requires |args| > 1
    ensures ArgsText(args) + ";" == Quoted(args[0]) + (", " + (ArgsText(args[1..]) + ";"))
  {
  }

  lemma ScanEnd(acc: seq<string>)
    ensures ScanArgs(";", acc, false, "") == acc
  {
  }

  lemma {:induction false} ScanText(args: seq<string>, acc: seq<string>)
    requires forall i :: 0 <= i < |args| ==> |args[i]| > 0 && Lacks(args[i], '"')
    ensures ScanArgs(ArgsText(args) + ";", acc, false, "") == acc + args
    decreases |args|
  {
    hide Quoted, ScanArgs, Lacks;
    if |args| == 0 {
      assert ArgsText(args) + ";" == ";";
      ScanEnd(acc);
    } else if |args| == 1 {
      assert ArgsText(args) == Quoted(args[0]);
      ScanArg(args[0], ";", acc);
      ScanEnd(acc + [args[0]]);
      assert args == [args[0]];
    } else {
      var rest := ArgsText(args[1..]) + ";";
      ArgsTextCons(args);
      hide ArgsText;
      ScanArg(args[0], ", " + rest, acc);
      ScanComma(rest, acc + [args[0]]);
      ScanText(args[1..], acc + [args[0]]);
      assert acc + [args[0]] + args[1..] == acc + args;
    }
  }

  lemma ScanSpace(s: string)
    ensures ScanArgs(" " + s, [], false, "") == ScanArgs(s, [], false, "")
  {
    assert (" " + s)[1..] == s;
  }

  lemma ParseNameLine(def: Definition, d: Definition)
    requires Lacks(def.name, ']')
    ensures ParseLine(d, NameLine(def)) == d.(name := def.name)
  {
    var line := NameLine(def);
    TrimSolid(line);
    FindIs(line, ']', 1 + |def.name|);
    assert line[1..1 + |def.name|] == def.name;
  }

  lemma ParsePathLine(def: Definition, d: Definition)
    requires Lacks(def.path, '"')
    ensures ParseLine(d, "    " + PathLine(def)) == d.(path := def.path)
  {
    hide ScanArgs, ParseFlag, Trim;
    var line := PathLine(def);
    TrimSolid(line);
    var s := line[5..];
    assert s == " " + Quoted(def.path) + ";";
    FindIs(s, '"', 1);
    var rest := s[2..];
    assert rest == def.path + "\";";
    FindIs(rest, '"', |def.path|);
    assert rest[..|def.path|] == def.path;
    assert line[..5] == "Path:";
  }

  lemma ParseArgsLine(def: Definition, d: Definition)
    requires forall i :: 0 <= i < |def.args| ==> |def.args[i]| > 0 && Lacks(def.args[i], '"')
    ensures ParseLine(d, "    " + ArgsLine(def)) == d.(args := def.args)
  {
    hide ArgsText, ScanArgs, ExtractQuoted, ParseFlag, Trim, Find;
    var line := ArgsLine(def);
    TrimSolid(line);
    var s := line[5..];
    assert s == " " + (ArgsText(def.args) + ";");
    ScanSpace(ArgsText(def.args) + ";");
    ScanText(def.args, []);
    assert line[..5] == "Args:";
    assert [] + def.args == def.args;
  }

  lemma ParseRebootLine(def: Definition, d: Definition)
    ensures ParseLine(d, "    " + RebootLine(def)) == d.(onReboot := def.onReboot)
  {
    hide ScanArgs, ExtractQuoted, Trim, Find;
    var line := RebootLine(def);
    TrimSolid(line);
    var word := if def.onReboot then "true" else "false";
    var s := line[9..];
    assert s == " " + (word + ";");
    TrimSolid(word + ";");
    assert (word + ";")[..|word|] == word;
    TrimSolid(word);
    assert line[..9] == "onReboot:";
    assert word[0] == 't' || word[0] == 'f';
  }

  lemma ParseDot(d: Definition)
    ensures ParseLine(d, ".") == d
  {
    TrimSolid(".");
  }

  function Printed(def: Definition): seq<string> {
    [NameLine(def), "    " + PathLine(def), "    " + ArgsLine(def), "    " + RebootLine(def), "."]
  }

  lemma {:induction false} ArgsTextOneLine(args: seq<string>)
    requires forall i :: 0 <= i < |args| ==> Lacks(args[i], '\n')
    ensures Lacks(ArgsText(args), '\n')
    decreases |args|
  {
    if |args| > 1 {
      ArgsTextOneLine(args[1..]);
    }
  }

  lemma OneLiners(def: Definition)
    requires Printable(def)
    ensures forall i :: 0 <= i < 5 ==> Lacks(Printed(def)[i], '\n')
  {
    ArgsTextOneLine(def.args);
    hide ArgsText;
  }

  /** A printed definition is five lines, whatever follows it. */
  lemma LinesOfSerialize(def: Definition, rest: string)
    requires Printable(def)
    ensures Lines(Serialize(def) + rest) == Printed(def) + Lines(rest)
  {
    hide Lines, ArgsText;
    OneLiners(def);
    var t4 := "." + "\n" + rest;
    var t3 := "    " + RebootLine(def) + "\n" + t4;
    var t2 := "    " + ArgsLine(def) + "\n" + t3;
    var t1 := "    " + PathLine(def) + "\n" + t2;
    assert Serialize(def) + rest == NameLine(def) + "\n" + t1;
    var l := Printed(def);
    assert Lacks(l[0], '\n') && Lacks(l[1], '\n') && Lacks(l[2], '\n') && Lacks(l[3], '\n') && Lacks(l[4], '\n');
    hide Lacks, NameLine, PathLine, ArgsLine, RebootLine;
    LinesCons(NameLine(def), t1);
    LinesCons("    " + PathLine(def), t2);
    LinesCons("    " + ArgsLine(def), t3);
    LinesCons("    " + RebootLine(def), t4);
    LinesCons(".", rest);
  }

  lemma ParsePrinted(def: Definition)
    requires Printable(def)
    ensures ParseLines(BLANK, Printed(def)) == def
  {
    ParseNameLine(def, BLANK);
    var d1 := BLANK.(name := def.name);
    ParsePathLine(def, d1);
    var d2 := d1.(path := def.path);
    ParseArgsLine(def, d2);
    var d3 := d2.(args := def.args);
    ParseRebootLine(def, d3);
    ParseDot(def);
    hide ParseLine, NameLine, PathLine, ArgsLine, RebootLine;
    var ls := Printed(def);
    assert ls[1..][0] == ls[1] && ls[1..][1..] == ls[2..];
    assert ls[2..][0] == ls[2] && ls[2..][1..] == ls[3..];
    assert ls[3..][0] == ls[3] && ls[3..][1..] == ls[4..];
    assert ls[4..][0] == ls[4] && ls[4..][1..] == [];
    assert ParseLines(def, ls[4..]) == def;
    assert ParseLines(d3, ls[3..]) == def;
    assert ParseLines(d2, ls[2..]) == def;
  }

  /* Everything a parse produces is printable again. */

  lemma {:induction false} LinesLackNewline(s: string)
    ensures forall i :: 0 <= i < |Lines(s)| ==> Lacks(Lines(s)[i], '\n')
    decreases |s|
  {
    if |s| > 0 {
      var i := Find(s, '\n');
      if i < |s| {
        LinesLackNewline(s[i + 1..]);
      }
    }
  }

  lemma {:induction false} TrimStartLacks(s: string, c: char)
    requires Lacks(s, c)
    ensures Lacks(TrimStart(s), c)
    decreases |s|
  {
    if |s| > 0 { TrimStartLacks(s[1..], c); }
  }

  lemma {:induction false} TrimEndLacks(s: string, c: char)
    requires Lacks(s, c)
    ensures Lacks(TrimEnd(s), c)
    decreases |s|
  {
    if |s| > 0 { TrimEndLacks(s[..|s| - 1], c); }
  }

  lemma TrimLacks(s: string, c: char)
    requires Lacks(s, c)
    ensures Lacks(Trim(s), c)
  {
    TrimStartLacks(s, c);
    TrimEndLacks(TrimStart(s), c);
  }

  lemma ExtractQuotedLacks(s: string)
    requires Lacks(s, '\n')
    ensures Lacks(ExtractQuoted(s), '\n') && Lacks(ExtractQuoted(s), '"')
  {
    hide Trim;
    TrimLacks(s, '\n');
    if Find(s, '"') == |s| { TrimLacks(s, '"'); }
  }

  predicate GoodArgs(args: seq<string>) {
    forall i :: 0 <= i < |args| ==> |args[i]| > 0 && Lacks(args[i], '\n') && Lacks(args[i], '"')
  }

  lemma {:induction false} ScanArgsGood(s: string, args: seq<string>, inQuote: bool, current: string)
    requires Lacks(s, '\n') && GoodArgs(args) && Lacks(current, '\n') && Lacks(current, '"')
    ensures GoodArgs(ScanArgs(s, args, inQuote, current))
    decreases |s|
  {
    if |s| == 0 || (s[0] == ';' && !inQuote) {
    } else if s[0] == '"' {
      if inQuote {
        if |current| > 0 { ScanArgsGood(s[1..], args + [current], false, ""); }
        else { ScanArgsGood(s[1..], args, false, current); }
      } else {
        ScanArgsGood(s[1..], args, true, current);
      }
    } else if inQuote {
      ScanArgsGood(s[1..], args, true, current + [s[0]]);
    } else {
      ScanArgsGood(s[1..], args, false, current);
    }
  }

  lemma ParseLinePrintable(def: Definition, raw: string)
    requires Printable(def) && Lacks(raw, '\n')
    ensures Printable(ParseLine(def, raw))
  {
    hide Trim, ScanArgs, ExtractQuoted, ParseFlag;
    var line := Trim(raw);
    TrimLacks(raw, '\n');
    if |line| >= 5 {
      assert Lacks(line[5..], '\n');
      ExtractQuotedLacks(line[5..]);
      ScanArgsGood(line[5..], [], false, "");
    }
  }

  lemma {:induction false} ParseLinesPrintable(def: Definition, lines: seq<string>)
    requires Printable(def) && forall i :: 0 <= i < |lines| ==> Lacks(lines[i], '\n')
    ensures Printable(ParseLines(def, lines))
    decreases |lines|
  {
    hide Printable, ParseLine, Lacks;
    if |lines| > 0 {
      ParseLinePrintable(def, lines[0]);
      ParseLinesPrintable(ParseLine(def, lines[0]), lines[1..]);
    }
  }

  lemma ParsePrintable(content: string)
    ensures Printable(Parse(content))
  {
    LinesLackNewline(content);
    hide Lines, ParseLines;
    ParseLinesPrintable(BLANK, Lines(content));
  }

  /** Printing then parsing gives the definition back exactly when the format can carry it. */
  lemma RoundTrip(def: Definition)
    ensures Parse(Serialize(def)) == def <==> Printable(def)
  {
    ParsePrintable(Serialize(def));
    if Printable(def) {
      LinesOfSerialize(def, "");
      assert Serialize(def) + "" == Serialize(def);
      assert Printed(def) + Lines("") == Printed(def);
      ParsePrinted(def);
    }
  }

  /** So parsing any text and printing it normalises it: parsing again changes nothing. */
  lemma ParseStable(content: string)
    ensures Parse(Serialize(Parse(content))) == Parse(content)
  {
    hide Parse, Serialize, Printable;
    ParsePrintable(content);
    RoundTrip(Parse(content));
  }

  /* ---------- Text written by hand ---------- */

  /** Spaces, tabs, line ends, carriage returns, vertical tabs and form feeds. */
  predicate Blank(s: string) {
    forall i :: 0 <= i < |s| ==> s[i] in [' ', '\t', '\n', '\r', 11 as char, 12 as char]
  }

  /** Starts and ends with something else. */
  predicate Solid(s: string) {
    && |s| > 0 && s[0] !in [' ', '\t', '\n', '\r', 11 as char, 12 as char]
    && s[|s| - 1] !in [' ', '\t', '\n', '\r', 11 as char, 12 as char]
  }

  lemma {:induction false} TrimStartBlank(a: string, s: string)
    requires Blank(a)
    ensures TrimStart(a + s) == TrimStart(s)
    decreases |a|
  {
    if |a| > 0 {
      assert (a + s)[1..] == a[1..] + s;
      TrimStartBlank(a[1..], s);
    } else {
      assert a + s == s;
    }
  }

  lemma {:induction false} TrimEndBlank(s: string, b: string)
    requires Blank(b)
    ensures TrimEnd(s + b) == TrimEnd(s)
    decreases |b|
  {
    if |b| > 0 {
      var t := b[..|b| - 1];
      assert (s + b)[..|s + b| - 1] == s + t;
      TrimEndBlank(s, t);
    } else {
      assert s + b == s;
    }
  }

  lemma {:induction false} TrimStartInner(s: string, b: string)
    ensures TrimStart(s) != "" ==> TrimStart(s + b) == TrimStart(s) + b
    ensures TrimStart(s) == "" ==> TrimStart(s + b) == TrimStart(b)
    decreases |s|
  {
    if |s| > 0 && IsSpace(s[0]) {
      assert (s + b)[1..] == s[1..] + b;
      TrimStartInner(s[1..], b);
    } else if |s| == 0 {
      assert s + b == b;
    }
  }

  /** Blanks around a line, a carriage return at its end included, do not matter. */
  lemma PaddedLine(def: Definition, a: string, line: string, b: string)
    requires Blank(a) && Blank(b)
    ensures ParseLine(def, a + line + b) == ParseLine(def, line)
  {
    TrimPadded(a, line, b);
    hide Trim, ExtractQuoted, ScanArgs, ParseFlag;
  }

  lemma TrimPadded(a: string, s: string, b: string)
    requires Blank(a) && Blank(b)
    ensures Trim(a + s + b) == Trim(s)
  {
    hide TrimStart, TrimEnd;
    assert a + s + b == a + (s + b);
    TrimStartBlank(a, s + b);
    TrimStartInner(s, b);
    if TrimStart(s) != "" {
      TrimEndBlank(TrimStart(s), b);
    } else {
      TrimStartBlank(b, "");
      assert b + "" == b;
      TrimNothing();
    }
  }

  lemma TrimNothing()
    ensures TrimStart("") == "" && TrimEnd("") == ""
  {
  }

  /** A flag is set by exactly the words true, 1 and yes, with or without a semicolon. */
  lemma FlagExact(def: Definition, w: string)
    requires Solid(w) && w[|w| - 1] != ';'
    ensures ParseLine(def, "onReboot: " + w) == def.(onReboot := w == "true" || w == "1" || w == "yes")
    ensures ParseLine(def, "onReboot: " + w + ";") == def.(onReboot := w == "true" || w == "1" || w == "yes")
  {
    hide ExtractQuoted, ScanArgs, Trim, Find;
    var l1, l2 := "onReboot: " + w, "onReboot: " + w + ";";
    assert l1[..9] == "onReboot:" && l1[9..] == " " + w && l2[..9] == "onReboot:" && l2[9..] == " " + (w + ";");
    assert l1[0] == 'o' && l2[0] == 'o' && l1[|l1| - 1] == w[|w| - 1];
    TrimSolid(l1);
    TrimSolid(l2);
    TrimSolid(w);
    TrimSolid(w + ";");
    assert (w + ";")[..|w|] == w;
  }

  /** A path without quotes is taken as it stands, a final semicolon included; one whose quote is
      not closed runs to the end of the line. */
  lemma UnquotedPath(def: Definition, p: string)
    requires Solid(p) && Lacks(p, '"')
    ensures ParseLine(def, "Path: " + p) == def.(path := p)
    ensures ParseLine(def, "Path: " + "\"" + p) == def.(path := p)
  {
    hide ScanArgs, ParseFlag, Trim;
    var l1, l2 := "Path: " + p, "Path: " + "\"" + p;
    assert l1[..5] == "Path:" && l1[5..] == " " + p && l2[..5] == "Path:" && l2[5..] == " " + "\"" + p;
    assert l1[|l1| - 1] == p[|p| - 1] && l2[|l2| - 1] == p[|p| - 1];
    TrimSolid(l1);
    TrimSolid(l2);
    TrimSolid(p);
    assert Lacks(l1[5..], '"');
    FindIs(l1[5..], '"', |l1[5..]|);
    FindIs(l2[5..], '"', 1);
    assert l2[5..][2..] == p;
    FindIs(p, '"', |p|);
    assert p[..|p|] == p;
  }

  /* ---------- Startup files ---------- */

  function AddStarted(started: seq<Definition>, block: string): seq<Definition> {
    var def := Parse(block);
    if |def.path| > 0 then started + [def] else started
  }

  /** A line holding only a dot ends a block; what is left at the end is a block too. */
  function Load(lines: seq<string>, block: string, started: seq<Definition>): seq<Definition>
    decreases |lines|
  {
    if |lines| == 0 then (if |block| > 0 then AddStarted(started, block) else started)
    else
      var b := block + lines[0] + "\n";
      if lines[0] == "." then Load(lines[1..], "", AddStarted(started, b))
      else Load(lines[1..], b, started)
  }

  function SerializeAll(defs: seq<Definition>): string {
    if |defs| == 0 then "" else Serialize(defs[0]) + SerializeAll(defs[1..])
  }

  function WithPath(defs: seq<Definition>): seq<Definition> {
    if |defs| == 0 then []
    else if |defs[0].path| > 0 then [defs[0]] + WithPath(defs[1..]) else WithPath(defs[1..])
  }

  lemma LoadBlock(def: Definition, rest: seq<string>, started: seq<Definition>)
    ensures Load(Printed(def) + rest, "", started) == Load(rest, "", AddStarted(started, Serialize(def)))
  {
    var l := Printed(def);
    SerializeLines(def);
    assert l[0] != "." && l[1] != "." && l[2] != "." && l[3] != ".";
    hide Serialize, Printed;
    assert l == [l[0], l[1], l[2], l[3], l[4]];
    LoadFive(l[0], l[1], l[2], l[3], rest, started);
  }

  lemma SerializeLines(def: Definition)
    ensures var l := Printed(def);
            Serialize(def) == "" + l[0] + "\n" + l[1] + "\n" + l[2] + "\n" + l[3] + "\n" + "." + "\n"
  {
    hide NameLine, PathLine, ArgsLine, RebootLine;
  }

  lemma LoadFive(l0: string, l1: string, l2: string, l3: string, rest: seq<string>, started: seq<Definition>)
    requires l0 != "." && l1 != "." && l2 != "." && l3 != "."
    ensures Load([l0, l1, l2, l3, "."] + rest, "", started)
            == Load(rest, "", AddStarted(started, "" + l0 + "\n" + l1 + "\n" + l2 + "\n" + l3 + "\n" + "." + "\n"))
  {
    hide AddStarted, Load;
    var b1 := "" + l0 + "\n";
    var b2 := b1 + l1 + "\n";
    var b3 := b2 + l2 + "\n";
    var b4 := b3 + l3 + "\n";
    LoadLine(l0, [l1, l2, l3, "."] + rest, "", started);
    LoadLine(l1, [l2, l3, "."] + rest, b1, started);
    LoadLine(l2, [l3, "."] + rest, b2, started);
    LoadLine(l3, ["."] + rest, b3, started);
    LoadLine(".", rest, b4, started);
    assert [l0, l1, l2, l3, "."] + rest == [l0] + ([l1, l2, l3, "."] + rest);
    assert [l1, l2, l3, "."] + rest == [l1] + ([l2, l3, "."] + rest);
    assert [l2, l3, "."] + rest == [l2] + ([l3, "."] + rest);
    assert [l3, "."] + rest == [l3] + (["."] + rest);
  }

  lemma LoadLine(line: string, rest: seq<string>, block: string, started: seq<Definition>)
    ensures Load([line] + rest, block, started) ==
            var b := block + line + "\n";
            if line == "." then Load(rest, "", AddStarted(started, b)) else Load(rest, b, started)
  {
    assert ([line] + rest)[1..] == rest;
  }

  lemma LoadEnd(started: seq<Definition>)
    ensures Load(Lines(""), "", started) == started
  {
  }

  lemma {:induction false} LoadAll(defs: seq<Definition>, started: seq<Definition>)
    requires forall i :: 0 <= i < |defs| ==> Printable(defs[i])
    ensures Load(Lines(SerializeAll(defs)), "", started) == started + WithPath(defs)
    decreases |defs|
  {
    hide Printable, Serialize, Printed, Parse, Load, Lines;
    if |defs| > 0 {
      var rest := SerializeAll(defs[1..]);
      LinesOfSerialize(defs[0], rest);
      LoadBlock(defs[0], Lines(rest), started);
      RoundTrip(defs[0]);
      LoadAll(defs[1..], AddStarted(started, Serialize(defs[0])));
      assert started + [defs[0]] + WithPath(defs[1..]) == started + ([defs[0]] + WithPath(defs[1..]));
    } else {
      LoadEnd(started);
    }
  }

  function Text(lines: seq<string>): string {
    if |lines| == 0 then "" else lines[0] + "\n" + Text(lines[1..])
  }

  /** Lines after the last dot are a block of their own; it starts its process if it has a path. */
  lemma {:induction false} TrailingBlock(lines: seq<string>, block: string, started: seq<Definition>)
    requires forall i :: 0 <= i < |lines| ==> lines[i] != "."
    requires |lines| > 0 || |block| > 0
    ensures var def := Parse(block + Text(lines));
            Load(lines, block, started) == if |def.path| > 0 then started + [def] else started
    decreases |lines|
  {
    hide Parse;
    if |lines| > 0 {
      TrailingBlock(lines[1..], block + lines[0] + "\n", started);
      assert block + lines[0] + "\n" + Text(lines[1..]) == block + Text(lines);
    } else {
      assert block + "" == block;
    }
  }

  /** A startup file printed block by block starts, in order, the definitions with a path. */
  lemma StartupRoundTrip(defs: seq<Definition>)
    requires forall i :: 0 <= i < |defs| ==> Printable(defs[i])
    ensures Load(Lines(SerializeAll(defs)), "", []) == WithPath(defs)
  {
    LoadAll(defs, []);
    assert [] + WithPath(defs) == WithPath(defs);
  }

  /* ---------- The loops ---------- */

  lemma {:induction false} TrimStartAt(s: string, k: nat)
    requires k <= |s| && (forall i :: 0 <= i < k ==> IsSpace(s[i])) && (k < |s| ==> !IsSpace(s[k]))
    ensures TrimStart(s) == s[k..]
    decreases k
  {
    if k > 0 {
      TrimStartAt(s[1..], k - 1);
      assert s[1..][k - 1..] == s[k..];
    }
  }

  lemma {:induction false} TrimEndAt(s: string, k: nat)
    requires k <= |s| && (forall i :: k <= i < |s| ==> IsSpace(s[i])) && (k > 0 ==> !IsSpace(s[k - 1]))
    ensures TrimEnd(s) == s[..k]
    decreases |s|
  {
    if k < |s| {
      TrimEndAt(s[..|s| - 1], k);
      assert s[..|s| - 1][..k] == s[..k];
    } else {
      assert s[..k] == s;
    }
  }

  lemma TrimmedTail(s: string, start: nat, end: nat)
    requires start <= end <= |s| && (forall i :: end <= i < |s| ==> IsSpace(s[i]))
    requires end > start ==> !IsSpace(s[end - 1])
    ensures TrimEnd(s[start..]) == s[start..end]
  {
    hide TrimEnd, IsSpace;
    var t := s[start..];
    assert forall i :: end - start <= i < |t| ==> t[i] == s[start + i];
    TrimEndAt(t, end - start);
    assert t[..end - start] == s[start..end];
  }

  method TrimSpaces(s: string) returns (r: string)
    ensures r == Trim(s)
  {
    hide TrimStart, TrimEnd, IsSpace;
    var start, end := 0, |s|;
    while start < end && IsSpace(s[start])
      invariant 0 <= start <= end == |s|
      invariant forall i :: 0 <= i < start ==> IsSpace(s[i])
    {
      start := start + 1;
    }
    TrimStartAt(s, start);
    while end > start && IsSpace(s[end - 1])
      invariant start <= end <= |s|
      invariant forall i :: end <= i < |s| ==> IsSpace(s[i])
    {
      end := end - 1;
    }
    r := s[start..end];
    TrimmedTail(s, start, end);
  }

  method ParseArgsList(s: string) returns (args: seq<string>)
    ensures args == ScanArgs(s, [], false, "")
  {
    args := [];
    var inQuote, current, i := false, "", 0;
    assert s[0..] == s;
    while i < |s|
      invariant 0 <= i <= |s|
      invariant ScanArgs(s[i..], args, inQuote, current) == ScanArgs(s, [], false, "")
    {
      var c := s[i];
      assert s[i..][0] == c && s[i..][1..] == s[i + 1..];
      i := i + 1;
      if c == '"' {
        if inQuote {
          if |current| > 0 {
            args := args + [current];
            current := "";
          }
          inQuote := false;
        } else {
          inQuote := true;
        }
      } else if c == ',' && !inQuote {
        continue;
      } else if c == ';' && !inQuote {
        break;
      } else if inQuote {
        current := current + [c];
      }
    }
    if |current| > 0 { args := args + [current]; }
  }

  /** getline: the next line and the text after it. */
  method GetLine(s: string) returns (line: string, rest: string)
    requires |s| > 0
    ensures Lines(s) == [line] + Lines(rest) && |rest| < |s|
  {
    var i := 0;
    while i < |s| && s[i] != '\n'
      invariant 0 <= i <= |s| && forall k :: 0 <= k < i ==> s[k] != '\n'
    {
      i := i + 1;
    }
    FindIs(s, '\n', i);
    if i == |s| {
      assert Lines("") == [];
      return s, "";
    }
    return s[..i], s[i + 1..];
  }

  method ParseContent(content: string) returns (def: Definition)
    ensures def == Parse(content)
  {
    hide Lines, ParseLine;
    LinesEmpty();
    def := BLANK;
    var stream := content;
    while |stream| > 0
      invariant ParseLines(def, Lines(stream)) == Parse(content)
      decreases |stream|
    {
      var line, rest := GetLine(stream);
      assert ([line] + Lines(rest))[1..] == Lines(rest);
      def := ParseLine(def, line);
      stream := rest;
    }
  }

  lemma LinesEmpty()
    ensures Lines("") == []
  {
  }

  method LoadStartupProcesses(content: string) returns (started: seq<Definition>)
    ensures started == Load(Lines(content), "", [])
  {
    hide Lines;
    LinesEmpty();
    started := [];
    var stream, currentBlock := content, "";
    while |stream| > 0
      invariant Load(Lines(stream), currentBlock, started) == Load(Lines(content), "", [])
      decreases |stream|
    {
      var line, rest := GetLine(stream);
      assert ([line] + Lines(rest))[1..] == Lines(rest);
      currentBlock := currentBlock + line + "\n";
      if line == "." {
        var def := ParseContent(currentBlock);
        if |def.path| > 0 { started := started + [def]; }
        currentBlock := "";
      }
      stream := rest;
    }
    if |currentBlock| > 0 {
      var def := ParseContent(currentBlock);
      if |def.path| > 0 { started := started + [def]; }
    }
  }

  method SerializeDefinition(def: Definition) returns (text: string)
    ensures text == Serialize(def)
  {
    text := NameLine(def) + "\n" + "    " + PathLine(def) + "\n" + "    Args: ";
    ghost var head := text;
    assert head + ArgsText(def.args) == head + ArgsText(def.args[0..]);
    var i := 0;
    while i < |def.args|
      invariant 0 <= i <= |def.args|
      invariant text + (if 0 < i < |def.args| then ", " else "") + ArgsText(def.args[i..]) == head + ArgsText(def.args)
    {
      ghost var before := text;
      ghost var sep := if i > 0 then ", " else "";
      if i > 0 { text := text + ", "; }
      assert text == before + sep;
      ArgsTextStep(def.args, i);
      assert text + ArgsText(def.args[i..])
          == text + Quoted(def.args[i]) + (if i + 1 < |def.args| then ", " else "") + ArgsText(def.args[i + 1..]);
      text := text + Quoted(def.args[i]);
      i := i + 1;
    }
    assert text + "" == text;
    text := text + ";\n" + "    " + RebootLine(def) + "\n" + ".\n";
    SerializeFlat(def);
  }

  lemma ArgsTextStep(args: seq<string>, i: nat)
    requires i < |args|
    ensures ArgsText(args[i..])
            == Quoted(args[i]) + (if i + 1 < |args| then ", " else "") + ArgsText(args[i + 1..])
  {
    assert args[i..][1..] == args[i + 1..];
  }

  lemma SerializeFlat(def: Definition)
    ensures Serialize(def) ==
            (NameLine(def) + "\n" + "    " + PathLine(def) + "\n" + "    Args: " + ArgsText(def.args))
            + ";\n" + "    " + RebootLine(def) + "\n" + ".\n"
  {
    hide NameLine, PathLine, RebootLine, ArgsText;
  }
}
