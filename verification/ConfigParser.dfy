/** The strict and loose readers of FortiOS `config / edit / set / next / end` text. */
module ConfigParser {
  import opened Wrappers
  import opened Text
  import ShellTokens

  datatype Block = Block(name: string, settings: map<string, seq<string>>)

  datatype ParseError = HeaderMissing | InvalidQuoting | NamelessEdit

  type Parsed = Result<seq<Block>, ParseError>

  const INTERFACE_HEADER := "config system interface"
  const POLICY_HEADER := "config firewall policy"

  /* ---------- Lines ---------- */

  function Normalize(line: string): string
  {
    Strip(if line != "" && line[0] as int == 0xFEFF then line[1..] else line)
  }

  function NormalizeAll(lines: seq<string>): (r: seq<string>)
    ensures |r| == |lines|
  {
    if lines == [] then [] else [Normalize(lines[0])] + NormalizeAll(lines[1..])
  }

  predicate HeaderMatches(fold: Folding, line: string, header: string)
  {
    var actual, expected := Squash(Fold(fold, line)), Squash(Fold(fold, header));
    actual == expected || StartsWith(actual, expected + " ") || EndsWith(actual, " " + expected)
  }

  /* ---------- One line of each reader ---------- */

  datatype Scan = Scan(
    blocks: seq<Block>, current: Option<string>, settings: map<string, seq<string>>, inside: bool, depth: int)
  {
    /** The open block, if any, appended. */
    function Flushed(): seq<Block>
    {
      if current.Some? then blocks + [Block(current.value, settings)] else blocks
    }

    function Closed(inside: bool): Scan
    {
      Scan(Flushed(), None, map[], inside, depth)
    }
  }

  const START := Scan([], None, map[], false, 0)

  datatype Progress = Go(scan: Scan) | Stop(scan: Scan) | Fail(error: ParseError)

  function Opened(line: string): Result<string, ParseError>
    requires StartsWith(line, "edit ")
  {
    match ShellTokens.Split(line[|"edit "|..])
    case None => Err(InvalidQuoting)
    case Some(tokens) => if tokens == [] then Err(NamelessEdit) else Ok(tokens[0])
  }

  function SetIn(settings: map<string, seq<string>>, line: string): Result<map<string, seq<string>>, ParseError>
    requires StartsWith(line, "set ")
  {
    match ShellTokens.Split(line[|"set "|..])
    case None => Err(InvalidQuoting)
    case Some(values) => Ok(if |values| >= 2 then settings[values[0] := values[1..]] else settings)
  }

  function StrictStep(fold: Folding, header: string, s: Scan, line: string): Progress
  {
    if HeaderMatches(fold, line, header) then Go(s.(inside := true, depth := 1))
    else if !s.inside then Go(s)
    else if StartsWith(line, "config ") then Go(s.(depth := s.depth + 1))
    else if line == "end" then
      if s.depth == 1 then Stop(s.(depth := 0, inside := false)) else Go(s.(depth := s.depth - 1))
    else if s.depth != 1 then Go(s)
    else if StartsWith(line, "edit ") then
      match Opened(line)
      case Err(e) => Fail(e)
      case Ok(name) => Go(s.(blocks := s.Flushed(), current := Some(name), settings := map[]))
    else if StartsWith(line, "set ") && s.current.Some? then
      match SetIn(s.settings, line)
      case Err(e) => Fail(e)
      case Ok(settings) => Go(s.(settings := settings))
    else if line == "next" && s.current.Some? then Go(s.Closed(true))
    else Go(s)
  }

  function LooseStep(fold: Folding, s: Scan, line: string): Progress
  {
    if HeaderMatches(fold, line, INTERFACE_HEADER) then Go(s.Closed(true).(depth := 0))
    else if StartsWith(line, "edit ") then
      if s.depth != 0 then Go(s)
      else
        match Opened(line)
        case Err(e) => Fail(e)
        case Ok(name) =>
          Go(Scan(if s.inside then s.Flushed() else s.blocks, Some(name), map[], true, 0))
    else if !s.inside then Go(s)
    else if StartsWith(line, "config ") then Go(s.(depth := s.depth + 1))
    else if line == "end" then
      if s.depth > 0 then Go(s.(depth := s.depth - 1))
      else if s.current.Some? then Go(s.Closed(false))
      else Go(s)
    else if s.depth > 0 then Go(s)
    else if StartsWith(line, "set ") && s.current.Some? then
      match SetIn(s.settings, line)
      case Err(e) => Fail(e)
      case Ok(settings) => Go(s.(settings := settings))
    else if line == "next" && s.current.Some? then Go(s.Closed(false))
    else Go(s)
  }

  function StrictRun(fold: Folding, header: string, s: Scan, lines: seq<string>): Parsed
    decreases |lines|
  {
    if lines == [] then Ok(s.Flushed())
    else match StrictStep(fold, header, s, lines[0])
      case Go(next) => StrictRun(fold, header, next, lines[1..])
      case Stop(last) => Ok(last.Flushed())
      case Fail(e) => Err(e)
  }

  function LooseRun(fold: Folding, s: Scan, lines: seq<string>): Parsed
    decreases |lines|
  {
    if lines == [] then Ok(s.Flushed())
    else match LooseStep(fold, s, lines[0])
      case Go(next) => LooseRun(fold, next, lines[1..])
      case Stop(last) => Ok(last.Flushed())
      case Fail(e) => Err(e)
  }

  /** A text without the header, literally and up to case, is refused before any line is read. */
  ghost function StrictParse(fold: Folding, output: string, header: string): Parsed
  {
    if Contains(Fold(fold, output), Fold(fold, header))
    then StrictRun(fold, header, START, NormalizeAll(Lines(output)))
    else Err(HeaderMissing)
  }

  function LooseParse(fold: Folding, output: string): Parsed
  {
    LooseRun(fold, START, NormalizeAll(Lines(output)))
  }

  /* ---------- The readers ---------- */

  method ParseConfigBlocks(fold: Folding, output: string, header: string) returns (r: Parsed)
    ensures r == StrictParse(fold, output, header)
  {
    hide HeaderMatches, Normalize, SetIn, Opened, Lines, Fold, Contains;
    var found := FindText(Fold(fold, output), Fold(fold, header));
    if !found { return Err(HeaderMissing); }
    var lines := Lines(output);
    var blocks: seq<Block>, current: Option<string>, settings: map<string, seq<string>> := [], None, map[];
    var inContext, depth := false, 0;
    ghost var all := NormalizeAll(lines);
    var i := 0;
    while i < |lines|
      invariant 0 <= i <= |lines|
      invariant StrictRun(fold, header, START, all) ==
                StrictRun(fold, header, Scan(blocks, current, settings, inContext, depth), NormalizeAll(lines[i..]))
    {
      assert NormalizeAll(lines[i..])[1..] == NormalizeAll(lines[i + 1..]) by { assert lines[i..][1..] == lines[i + 1..]; }
      var line := Normalize(lines[i]);
      i := i + 1;
      if HeaderMatches(fold, line, header) {
        inContext := true;
        depth := 1;
        continue;
      }
      if !inContext { continue; }
      if StartsWith(line, "config ") {
        depth := depth + 1;
        continue;
      }
      if line == "end" {
        depth := depth - 1;
        if depth == 0 {
          if current.Some? { blocks := blocks + [Block(current.value, settings)]; }
          return Ok(blocks);
        }
        continue;
      }
      if depth != 1 { continue; }
      if StartsWith(line, "edit ") {
        if current.Some? { blocks := blocks + [Block(current.value, settings)]; }
        var name := Opened(line);
        if name.Err? { return Err(name.error); }
        current := Some(name.value);
        settings := map[];
      } else if StartsWith(line, "set ") && current.Some? {
        var updated := SetIn(settings, line);
        if updated.Err? { return Err(updated.error); }
        settings := updated.value;
      } else if line == "next" && current.Some? {
        blocks := blocks + [Block(current.value, settings)];
        current := None;
        settings := map[];
      }
    }
    if current.Some? { blocks := blocks + [Block(current.value, settings)]; }
    return Ok(blocks);
  }

  method ParseConfigBlocksLoosely(fold: Folding, output: string) returns (r: Parsed)
    ensures r == LooseParse(fold, output)
  {
    var lines := Lines(output);
    var blocks: seq<Block>, current: Option<string>, settings: map<string, seq<string>> := [], None, map[];
    hide HeaderMatches, Normalize, SetIn, Opened, Lines;
    var inBlock, depth := false, 0;
    ghost var all := NormalizeAll(lines);
    var i := 0;
    while i < |lines|
      invariant 0 <= i <= |lines|
      invariant LooseRun(fold, START, all) ==
                LooseRun(fold, Scan(blocks, current, settings, inBlock, depth), NormalizeAll(lines[i..]))
      invariant current.None? ==> settings == map[]
    {
      assert NormalizeAll(lines[i..])[1..] == NormalizeAll(lines[i + 1..]) by { assert lines[i..][1..] == lines[i + 1..]; }
      var line := Normalize(lines[i]);
      i := i + 1;
      if HeaderMatches(fold, line, INTERFACE_HEADER) {
        inBlock := true;
        depth := 0;
        if current.Some? {
          blocks := blocks + [Block(current.value, settings)];
          current := None;
          settings := map[];
        }
        continue;
      }
      if StartsWith(line, "edit ") {
        if depth == 0 {
          if inBlock && current.Some? { blocks := blocks + [Block(current.value, settings)]; }
          var name := Opened(line);
          if name.Err? { return Err(name.error); }
          current := Some(name.value);
          settings := map[];
          inBlock := true;
        }
        continue;
      }
      if !inBlock { continue; }
      if StartsWith(line, "config ") {
        depth := depth + 1;
        continue;
      }
      if line == "end" {
        if depth > 0 {
          depth := depth - 1;
        } else if current.Some? {
          blocks := blocks + [Block(current.value, settings)];
          inBlock := false;
          current := None;
          settings := map[];
        }
        continue;
      }
      if depth > 0 { continue; }
      if StartsWith(line, "set ") && current.Some? {
        var updated := SetIn(settings, line);
        if updated.Err? { return Err(updated.error); }
        settings := updated.value;
      } else if line == "next" && current.Some? {
        blocks := blocks + [Block(current.value, settings)];
        inBlock := false;
        current := None;
        settings := map[];
      }
    }
    if current.Some? { blocks := blocks + [Block(current.value, settings)]; }
    return Ok(blocks);
  }

  /** `part in text` */
  method FindText(text: string, part: string) returns (found: bool)
    ensures found <==> Contains(text, part)
  {
    var i := 0;
    while i + |part| <= |text|
      invariant forall j | 0 <= j < i :: !OccursAt(text, part, j)
    {
      if text[i..i + |part|] == part {
        assert OccursAt(text, part, i);
        return true;
      }
      i := i + 1;
    }
    return false;
  }
}
