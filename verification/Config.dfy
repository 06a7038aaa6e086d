/** The configuration file parser of uefi/config.cpp: a state machine over characters that can take several
    transitions on one character. */
module Config {

  /** A call of `processParam`. */
  datatype Call = Call(name: string, values: seq<string>)

  /** The variables of `parseFile`, and the calls made so far. */
  datatype Parser = Parser(state: int, name: string, values: seq<string>, calls: seq<Call>)

  const START := Parser(0, "", [""], [])

  predicate Alnum(c: char) { '0' <= c <= '9' || 'a' <= c <= 'z' || 'A' <= c <= 'Z' || c == '_' }

  predicate Newline(c: char) { c == '\r' || c == '\n' }

  predicate Blank(c: char) { c == ' ' || c == '\t' }

  /** `paramValues.back() += c`. */
  function AppendToLast(values: seq<string>, c: char): seq<string>
  {
    if values == [] then values else values[..|values| - 1] + [values[|values| - 1] + [c]]
  }

  /** `paramValues.resize(1)` and `paramValues.back().clear()`. */
  function Reset(p: Parser): Parser { p.(values := [""]) }

  datatype Move = Move(parser: Parser, isRead: bool)

  /** One round of the loop: the next parser, and whether it is done with the character. */
  function Next(p: Parser, c: char): Move
  {
    match p.state
    case 0 => if Alnum(c) then Move(p.(name := p.name + [c], state := 2), true)
      else Move(p.(state := if c == ';' then 1 else 0), true)
    case 1 => if Newline(c) then Move(Reset(p).(name := "", state := 0), true) else Move(p, true)
    case 2 =>
      if Alnum(c) then Move(p.(name := p.name + [c]), true)
      else if Blank(c) then Move(p.(state := 3), true)
      else if c == '=' then Move(p.(state := 4), true)
      else Move(p.(state := 1), false)
    case 3 => if c == '=' then Move(p.(state := 4), true) else if Blank(c) then Move(p, true)
      else Move(p.(state := 1), false)
    case 4 =>
      if Alnum(c) then Move(p.(state := 6), false)
      else if c == '"' then Move(p.(state := 5), true)
      else if Blank(c) then Move(p, true)
      else if Newline(c) then Move(Reset(p).(state := 8), false)
      else Move(p.(state := 1), false)
    case 5 =>
      if Newline(c) then Move(p.(state := 1), false)
      else if c == '"' then Move(p.(values := p.values + [""], state := 7), true)
      else Move(p.(values := AppendToLast(p.values, c)), true)
    case 6 =>
      if Newline(c) then Move(p.(values := p.values + [""], state := 8), false)
      else if c == ',' then Move(p.(values := p.values + [""], state := 4), true)
      else if Blank(c) then Move(p.(values := p.values + [""], state := 7), true)
      else Move(p.(values := AppendToLast(p.values, c)), true)
    case 7 =>
      if Newline(c) then Move(p.(state := 8), false)
      else if Blank(c) then Move(p, true)
      else if c == ',' then Move(p.(state := 4), true)
      else Move(p.(state := 1), false)
    case 8 => Move(p.(calls := p.calls + [Call(p.name, p.values)], state := 1), false)
    case _ => Move(p, true)
  }

  /** How many transitions a state can still take on one character. */
  function Rank(state: int): nat
  {
    match state
    case 2 => 1 case 3 => 1 case 4 => 3 case 5 => 1 case 6 => 2 case 7 => 2 case 8 => 1 case _ => 0
  }

  lemma RankFalls(p: Parser, c: char)
    ensures !Next(p, c).isRead ==> Rank(Next(p, c).parser.state) < Rank(p.state)
  {
  }

  /** The parser after one character, whatever number of transitions it takes. */
  function Feed(p: Parser, c: char): Parser
    decreases Rank(p.state)
  {
    var m := Next(p, c);
    if m.isRead then m.parser else RankFalls(p, c); Feed(m.parser, c)
  }

  function Run(p: Parser, s: string): Parser
    decreases |s|
  {
    if s == [] then p else Run(Feed(p, s[0]), s[1..])
  }

  /** The end of the file. */
  function Finish(p: Parser): seq<Call>
  {
    if p.state == 6 || p.state == 7 then p.calls + [Call(p.name, p.values)] else p.calls
  }

  /** `parseFile`. It terminates on every input: on each round a character is read or the rank of the state falls. */
  method ParseFile(data: string) returns (calls: seq<Call>)
    ensures calls == Finish(Run(START, data))
  {
    var p := START;
    var isRead := true;
    var c := ' ';
    var pos := 0;
    while true
      invariant 0 <= pos <= |data| && (!isRead ==> pos > 0 && c == data[pos - 1])
      invariant Run(if isRead then p else Feed(p, c), data[pos..]) == Run(START, data)
      decreases |data| - pos, if isRead then 0 else 1 + Rank(p.state)
    {
      if isRead {
        if pos >= |data| { break; }
        c := data[pos];
        pos := pos + 1;
      } else {
        isRead := true;
      }
      RankFalls(p, c);
      var m := Next(p, c);
      p, isRead := m.parser, m.isRead;
    }
    calls := Finish(p);
  }

  // ---------------------------------------------------------------------------------
  // Every call has a name
  // ---------------------------------------------------------------------------------

  predicate IsName(name: string) { name != "" && forall i :: 0 <= i < |name| ==> Alnum(name[i]) }

  ghost predicate Named(p: Parser)
  {
    && 0 <= p.state <= 8 && (p.state == 0 ==> p.name == "") && (p.state >= 2 ==> IsName(p.name)) && p.values != []
    && (forall i {:trigger p.calls[i]} :: 0 <= i < |p.calls| ==> IsName(p.calls[i].name) && p.calls[i].values != [])
  }

  lemma {:induction false} FeedNamed(p: Parser, c: char)
    requires Named(p)
    ensures Named(Feed(p, c)) == true
    decreases Rank(p.state)
  {
    RankFalls(p, c);
    if !Next(p, c).isRead { FeedNamed(Next(p, c).parser, c); }
  }

  lemma {:induction false} RunNamed(p: Parser, s: string)
    requires Named(p)
    ensures Named(Run(p, s)) == true
    decreases |s|
  {
    if s != [] {
      FeedNamed(p, s[0]);
      RunNamed(Feed(p, s[0]), s[1..]);
    }
  }

  /** Whatever the file holds, parameters are processed under names of letters, digits and underscores only, with at
      least one value. */
  lemma CallsAreNamed(data: string, i: nat)
    requires i < |Finish(Run(START, data))|
    ensures IsName(Finish(Run(START, data))[i].name) == true && Finish(Run(START, data))[i].values != []
  {
    RunNamed(START, data);
  }

  // ---------------------------------------------------------------------------------
  // Printing and parsing
  // ---------------------------------------------------------------------------------

  /** A value as it is written: quoted, or plain; with blanks before and behind it. */
  datatype Value = Value(text: string, quoted: bool, before: string, behind: string)

  /** A line: a parameter with blanks before its equals sign, or a comment. */
  datatype Line = Param(name: string, blanks: string, values: seq<Value>) | Comment(text: string)

  predicate Blanks(s: string) { forall i :: 0 <= i < |s| ==> Blank(s[i]) }

  predicate PlainText(s: string)
  {
    s != "" && Alnum(s[0]) && forall i :: 0 <= i < |s| ==> !Newline(s[i]) && !Blank(s[i]) && s[i] != ','
  }

  predicate QuotedText(s: string) { forall i :: 0 <= i < |s| ==> !Newline(s[i]) && s[i] != '"' }

  predicate ValueOk(v: Value)
  {
    (if v.quoted then QuotedText(v.text) else PlainText(v.text)) && Blanks(v.before) && Blanks(v.behind)
  }

  predicate LineOk(l: Line)
  {
    match l
    case Param(name, blanks, values) => IsName(name) && Blanks(blanks) && values != [] && forall i ::
      0 <= i < |values| ==> ValueOk(values[i])
    case Comment(text) => forall i :: 0 <= i < |text| ==> !Newline(text[i])
  }

  function PrintValue(v: Value): string
  {
    v.before + (if v.quoted then "\"" + v.text + "\"" else v.text) + v.behind
  }

  /** The values, separated by commas. */
  function PrintValues(values: seq<Value>): string
  {
    if values == [] then "" else if |values| == 1 then PrintValue(values[0])
      else PrintValue(values[0]) + "," + PrintValues(values[1..])
  }

  function PrintLine(l: Line): string
  {
    match l
    case Param(name, blanks, values) => name + blanks + "=" + PrintValues(values) + "\n"
    case Comment(text) => ";" + text + "\n"
  }

  function Print(lines: seq<Line>): string
  {
    if lines == [] then "" else PrintLine(lines[0]) + Print(lines[1..])
  }

  function Texts(values: seq<Value>): seq<string>
  {
    seq(|values|, i requires 0 <= i < |values| => values[i].text)
  }

  /** What the lines mean: one call for every parameter, in order, with its values and one empty value. */
  function Meaning(lines: seq<Line>): seq<Call>
  {
    if lines == [] then []
    else (if lines[0].Param? then [Call(lines[0].name, Texts(lines[0].values) + [""])] else []) + Meaning(lines[1..])
  }

  lemma {:induction false} RunAppend(p: Parser, s: string, t: string)
    ensures Run(p, s + t) == Run(Run(p, s), t)
    decreases |s|
  {
    if s == [] {
      assert s + t == t;
    } else {
      assert (s + t)[0] == s[0] && (s + t)[1..] == s[1..] + t;
      RunAppend(Feed(p, s[0]), s[1..], t);
    }
  }

  /** In state 2 a name grows. */
  lemma {:induction false} RunName(p: Parser, s: string)
    requires p.state == 2 && forall i :: 0 <= i < |s| ==> Alnum(s[i])
    ensures Run(p, s) == p.(name := p.name + s)
    decreases |s|
  {
    if s == [] {
      assert p.name + s == p.name;
    } else {
      RunName(p.(name := p.name + [s[0]]), s[1..]);
      assert p.name + [s[0]] + s[1..] == p.name + s;
    }
  }

  /** Blanks are skipped before and behind values and before the equals sign. */
  lemma {:induction false} RunBlanks(p: Parser, s: string)
    requires (p.state == 3 || p.state == 4 || p.state == 7) && Blanks(s)
    ensures Run(p, s) == p
    decreases |s|
  {
    if s != [] { RunBlanks(p, s[1..]); }
  }

  lemma {:induction false} RunComment(p: Parser, s: string)
    requires p.state == 1 && forall i :: 0 <= i < |s| ==> !Newline(s[i])
    ensures Run(p, s) == p
    decreases |s|
  {
    if s != [] { RunComment(p, s[1..]); }
  }

  /** Text is added to the last value. */
  lemma {:induction false} RunText(p: Parser, done: seq<string>, last: string, s: string)
    requires p.values == done + [last]
    requires ((p.state == 5 && QuotedText(s))
              || (p.state == 6 && forall i :: 0 <= i < |s| ==> !Newline(s[i]) && !Blank(s[i]) && s[i] != ','))
    ensures Run(p, s) == p.(values := done + [last + s])
    decreases |s|
  {
    if s == [] {
      assert last + s == last;
    } else {
      var p1 := p.(values := done + [last + [s[0]]]);
      assert AppendToLast(p.values, s[0]) == p1.values;
      assert Feed(p, s[0]) == p1;
      RunText(p1, done, last + [s[0]], s[1..]);
      assert last + [s[0]] + s[1..] == last + s;
    }
  }

  /** The parser behind a value: a plain value without blanks behind it is still open. */
  function BehindValue(p: Parser, done: seq<string>, v: Value): Parser
  {
    if v.quoted || v.behind != "" then p.(state := 7, values := done + [v.text] + [""])
      else p.(state := 6, values := done + [v.text])
  }

  lemma RunPlain(p: Parser, done: seq<string>, s: string)
    requires p.state == 4 && p.values == done + [""] && PlainText(s)
    ensures Run(p, s) == p.(state := 6, values := done + [s])
  {
    var p6 := p.(state := 6);
    assert Feed(p, s[0]) == Feed(p6, s[0]);
    RunText(p6, done, "", s);
    assert "" + s == s;
  }

  lemma RunQuoted(p: Parser, done: seq<string>, s: string)
    requires p.state == 4 && p.values == done + [""] && QuotedText(s)
    ensures Run(p, "\"" + s + "\"") == p.(state := 7, values := done + [s] + [""])
  {
    var p5 := p.(state := 5);
    RunAppend(p, "\"" + s, "\"");
    RunAppend(p, "\"", s);
    assert Run(p, "\"") == p5;
    RunText(p5, done, "", s);
    assert "" + s == s;
    var p6 := p5.(values := done + [s]);
    assert Run(p6, "\"") == Feed(p6, '"');
  }

  lemma RunBehind(p: Parser, done: seq<string>, text: string, s: string)
    requires p.state == 6 && p.values == done + [text] && Blanks(s)
    ensures Run(p, s) == if s == "" then p else p.(state := 7, values := done + [text] + [""])
  {
    if s != "" {
      assert Feed(p, s[0]) == p.(state := 7, values := done + [text] + [""]);
      RunBlanks(Feed(p, s[0]), s[1..]);
    }
  }

  lemma RunValue(p: Parser, done: seq<string>, v: Value)
    requires p.state == 4 && p.values == done + [""] && ValueOk(v)
    ensures Run(p, PrintValue(v)) == BehindValue(p, done, v)
  {
    var body := if v.quoted then "\"" + v.text + "\"" else v.text;
    RunAppend(p, v.before + body, v.behind);
    RunAppend(p, v.before, body);
    RunBlanks(p, v.before);
    if v.quoted {
      RunQuoted(p, done, v.text);
      RunBlanks(p.(state := 7, values := done + [v.text] + [""]), v.behind);
    } else {
      RunPlain(p, done, v.text);
      RunBehind(p.(state := 6, values := done + [v.text]), done, v.text, v.behind);
    }
  }

  /** A comma leads to the next value, the end of the line to the call. */
  lemma RunComma(p: Parser, done: seq<string>, v: Value)
    ensures Run(BehindValue(p, done, v), ",") == p.(state := 4, values := done + [v.text] + [""])
  {
    var q := BehindValue(p, done, v);
    assert Run(q, ",") == Feed(q, ',');
  }

  lemma RunEnd(p: Parser, done: seq<string>, v: Value)
    ensures Run(BehindValue(p, done, v), "\n") == Parser(0, "", [""], p.calls + [Call(p.name, done + [v.text] + [""])])
  {
    var q := BehindValue(p, done, v);
    assert Run(q, "\n") == Feed(q, '\n');
    var p8 := p.(state := 8, values := done + [v.text] + [""]);
    assert Feed(q, '\n') == Feed(p8, '\n');
    assert Feed(p8, '\n') == Feed(p8.(calls := p8.calls + [Call(p8.name, p8.values)], state := 1), '\n');
  }

  lemma {:induction false} RunValues(p: Parser, done: seq<string>, values: seq<Value>)
    requires p.state == 4 && p.values == done + [""] && values != [] && forall i :: 0 <= i < |values| ==>
             ValueOk(values[i])
    ensures Run(p, PrintValues(values) + "\n") ==
            Parser(0, "", [""], p.calls + [Call(p.name, done + Texts(values) + [""])])
    decreases |values|
  {
    var v := values[0];
    RunValue(p, done, v);
    RunAppend(p, PrintValues(values), "\n");
    if |values| == 1 {
      RunEnd(p, done, v);
      assert Texts(values) == [v.text];
    } else {
      var rest := values[1..];
      RunAppend(p, PrintValue(v) + ",", PrintValues(rest));
      RunAppend(p, PrintValue(v), ",");
      RunComma(p, done, v);
      var q := p.(state := 4, values := done + [v.text] + [""]);
      RunValues(q, done + [v.text], rest);
      RunAppend(q, PrintValues(rest), "\n");
      assert done + [v.text] + Texts(rest) == done + Texts(values) by
      { assert Texts(values) == [v.text] + Texts(rest); }
    }
  }

  lemma RunFirstName(p: Parser, name: string)
    requires p.state == 0 && p.name == "" && IsName(name)
    ensures Run(p, name) == p.(state := 2, name := name)
  {
    var p2 := p.(state := 2, name := [name[0]]);
    assert Feed(p, name[0]) == p2;
    RunName(p2, name[1..]);
    assert [name[0]] + name[1..] == name;
  }

  lemma RunEquals(p: Parser, blanks: string)
    requires p.state == 2 && Blanks(blanks)
    ensures Run(p, blanks + "=") == p.(state := 4)
  {
    RunAppend(p, blanks, "=");
    if blanks == "" {
      assert Run(p, "=") == Feed(p, '=');
    } else {
      var p3 := p.(state := 3);
      assert Feed(p, blanks[0]) == p3;
      RunBlanks(p3, blanks[1..]);
      assert Run(p3, "=") == Feed(p3, '=');
    }
  }

  lemma RunParam(calls: seq<Call>, l: Line)
    requires l.Param? && LineOk(l)
    ensures Run(Parser(0, "", [""], calls), PrintLine(l)) ==
            Parser(0, "", [""], calls + [Call(l.name, Texts(l.values) + [""])])
  {
    var p, rest := Parser(0, "", [""], calls), PrintValues(l.values) + "\n";
    assert PrintLine(l) == l.name + l.blanks + "=" + rest;
    assert PrintLine(l) == l.name + (l.blanks + "=") + rest;
    RunAppend(p, l.name + (l.blanks + "="), rest);
    RunAppend(p, l.name, l.blanks + "=");
    RunFirstName(p, l.name);
    RunEquals(p.(state := 2, name := l.name), l.blanks);
    RunValues(p.(state := 4, name := l.name), [], l.values);
    assert [] + Texts(l.values) == Texts(l.values);
  }

  lemma RunLine(calls: seq<Call>, l: Line)
    requires LineOk(l)
    ensures Run(Parser(0, "", [""], calls), PrintLine(l)) == Parser(0, "", [""], calls + Meaning([l]))
  {
    if l.Param? {
      RunParam(calls, l);
    } else {
      var p := Parser(0, "", [""], calls);
      RunAppend(p, ";" + l.text, "\n");
      RunAppend(p, ";", l.text);
      assert Run(p, ";") == p.(state := 1);
      RunComment(p.(state := 1), l.text);
      assert Run(p.(state := 1), "\n") == p;
      assert calls + Meaning([l]) == calls;
    }
  }

  lemma MeaningFirst(calls: seq<Call>, lines: seq<Line>)
    requires lines != []
    ensures calls + Meaning([lines[0]]) + Meaning(lines[1..]) == calls + Meaning(lines)
  {
    var first := if lines[0].Param? then [Call(lines[0].name, Texts(lines[0].values) + [""])] else [];
    assert [lines[0]][1..] == [];
    assert Meaning([lines[0]]) == first + Meaning([]) == first;
    assert Meaning(lines) == first + Meaning(lines[1..]);
  }

  lemma {:induction false} RunPrint(calls: seq<Call>, lines: seq<Line>)
    requires forall i :: 0 <= i < |lines| ==> LineOk(lines[i])
    ensures Run(Parser(0, "", [""], calls), Print(lines)) == Parser(0, "", [""], calls + Meaning(lines))
    decreases |lines|
  {
    var p := Parser(0, "", [""], calls);
    if lines == [] {
      assert calls + Meaning(lines) == calls;
    } else {
      RunAppend(p, PrintLine(lines[0]), Print(lines[1..]));
      RunLine(calls, lines[0]);
      RunPrint(calls + Meaning([lines[0]]), lines[1..]);
      MeaningFirst(calls, lines);
    }
  }

  /** Parsing what was printed makes exactly the calls that were meant. */
  lemma RoundTrip(lines: seq<Line>)
    requires forall i :: 0 <= i < |lines| ==> LineOk(lines[i])
    ensures Finish(Run(START, Print(lines))) == Meaning(lines)
  {
    RunPrint([], lines);
    assert [] + Meaning(lines) == Meaning(lines);
  }
}
