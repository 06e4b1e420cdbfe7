/** `Commands`: the registry of handlers and `do`, which cuts an input line
    into a command name and a raw argument string and looks the name up. */
module Dispatch {
  import opened Results
  import opened Strings

  /** A line cut at its first space. */
  datatype Parsed = Parsed(name: string, params: string)

  /** The cut `do` makes: the name ends at the first space when that space is
      not the first character; the argument string is everything after the
      first space, or the whole line when there is no space at all. */
  function SplitLine(line: string): Parsed {
    var cmdLen := IndexOf(line, ' ');
    var cmd := if cmdLen > 0 then line[..cmdLen] else line;
    Parsed(cmd, line[cmdLen + 1..])
  }

  /** Without a space, `indexOf` is -1: the name and the argument string are
      both the whole line. With a leading space, the name is the whole line
      and the argument string is everything after that space. */
  lemma SplitLineEdges(line: string)
    ensures ' ' !in line ==> SplitLine(line) == Parsed(line, line)
    ensures |line| > 0 && line[0] == ' ' ==> SplitLine(line) == Parsed(line, line[1..])
  {
    if ' ' !in line {
      assert line[0..] == line;
    }
  }

  /** The handler `do` calls and the argument string it passes. */
  datatype Invocation<H> = Invocation(handler: H, params: string)

  class Commands<H> {
    /** The name-to-handler table, fixed when the dispatcher is built. */
    const commands: map<string, H>

    constructor (commands: map<string, H>)
      ensures this.commands == commands
    {
      this.commands := commands;
    }

    /** `do(line)`: an unregistered name fails with `unknown command '<name>'`
        and selects no handler; a registered one selects exactly the handler
        stored under that very name (exact, case-sensitive lookup) together
        with the untrimmed argument string. */
    function Do(line: string): (r: Result<Invocation<H>>)
      ensures var p := SplitLine(line);
        && (r.Failure? <==> p.name !in commands)
        && (r.Failure? ==> r.error == UnknownCommand(p.name))
        && (r.Success? ==> r.value == Invocation(commands[p.name], p.params))
    {
      var p := SplitLine(line);
      if p.name !in commands then Failure(UnknownCommand(p.name))
      else Success(Invocation(commands[p.name], p.params))
    }
  }

  /** When the first space is at a position k > 0, the name is the text
      before it and the handler receives the untrimmed text after it. */
  lemma SplitLineAtFirstSpace(line: string)
    requires |line| > 0 && line[0] != ' ' && ' ' in line
    ensures var p := SplitLine(line);
      && p.name != "" && ' ' !in p.name
      && line == p.name + " " + p.params
  {
    var k := IndexOf(line, ' ');
    assert line == line[..k] + " " + line[k + 1..];
  }

  /** A space-free word with an argument string after one space: the whole
      word is the name and the handler receives the rest untouched. */
  lemma {:induction false} SplitLineWordThenArgs(name: string, params: string)
    requires name != "" && ' ' !in name
    ensures SplitLine(name + " " + params) == Parsed(name, params)
  {
    var line := name + " " + params;
    IndexOfAfter(name, " " + params, ' ');
    assert line == name + (" " + params);
    assert line[..|name|] == name;
    assert line[|name| + 1..] == params;
  }
}
