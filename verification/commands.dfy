/**
 * The classification of one input line into a command, in the order the
 * server tries the command patterns.
 */
module Commands {
  import opened Wrappers
  import opened Text
  import opened Patterns

  datatype Command =
    | Nick(nick: string)
    | Join(room: string)
    | Leave
    | Bye
    | Priv(target: string, text: string)
    | Public(text: string)
    | Unknown

  const NickPattern := Pattern("nick ", OneToken)
  const JoinPattern := Pattern("join ", OneToken)
  const PrivPattern := Pattern("priv ", TokenAndText)

  /** The command text of a slash line: what follows the slash, trimmed. */
  function Body(line: string): (cmd: string)
    requires |line| > 0
    ensures IsTrimmed(cmd) && |cmd| < |line|
  {
    Trim(line[1..])
  }

  /** A line the server reads as a command: it starts with '/'. */
  predicate IsSlashed(line: string) {
    |line| > 0 && line[0] == '/'
  }

  /**
   * A line starting with '/' is, by its trimmed body: a nick or join
   * command when that pattern is found anywhere in it, leave or bye when it
   * is exactly that word, a private message when the priv pattern is found,
   * public text (keeping its leading '/') when it starts with another '/',
   * and otherwise unknown. Any other non-empty line is public text after
   * trimming. An empty line is no command.
   */
  function Classify(line: string): (c: Option<Command>)
    ensures c.None? <==> line == ""
    ensures |line| > 0 && line[0] != '/' ==> c == Some(Public(Trim(line)))
    ensures c.Some? && c.value.Nick? ==> IsToken(c.value.nick)
    ensures c.Some? && c.value.Join? ==> IsToken(c.value.room)
    ensures c.Some? && c.value.Priv? ==> IsToken(c.value.target) && IsText(c.value.text)
    // The first rule that applies wins, in the order the server tries them.
    ensures c.Some? && c.value.Nick? <==> IsSlashed(line) && Find(NickPattern, Body(line)).Some?
    ensures c.Some? && c.value.Join? <==>
      IsSlashed(line) && Find(NickPattern, Body(line)).None? && Find(JoinPattern, Body(line)).Some?
    ensures c == Some(Leave) <==> IsSlashed(line) && Body(line) == "leave"
    ensures c == Some(Bye) <==> IsSlashed(line) && Body(line) == "bye"
    ensures c.Some? && c.value.Priv? <==>
      && IsSlashed(line) && Find(NickPattern, Body(line)).None? && Find(JoinPattern, Body(line)).None?
      && Body(line) != "leave" && Body(line) != "bye" && Find(PrivPattern, Body(line)).Some?
    ensures IsSlashed(line) && c.value.Public? <==>
      && IsSlashed(line) && Find(NickPattern, Body(line)).None? && Find(JoinPattern, Body(line)).None?
      && Body(line) != "leave" && Body(line) != "bye" && Find(PrivPattern, Body(line)).None?
      && |Body(line)| > 0 && Body(line)[0] == '/'
    ensures c == Some(Unknown) <==>
      && IsSlashed(line) && Find(NickPattern, Body(line)).None? && Find(JoinPattern, Body(line)).None?
      && Body(line) != "leave" && Body(line) != "bye" && Find(PrivPattern, Body(line)).None?
      && (Body(line) == "" || Body(line)[0] != '/')
    // A found command carries the groups of the pattern that was found.
    ensures c.Some? && c.value.Nick? ==>
      var f := Find(NickPattern, Body(line)); f.Some? && c.value.nick == f.value.first
    ensures c.Some? && c.value.Join? ==>
      var f := Find(JoinPattern, Body(line)); f.Some? && c.value.room == f.value.first
    ensures c.Some? && c.value.Priv? ==>
      var f := Find(PrivPattern, Body(line)); f.Some? && c.value.target == f.value.first && c.value.text == f.value.second
    ensures IsSlashed(line) && c.value.Public? ==>
      c.value.text == Body(line) && |c.value.text| > 0 && c.value.text[0] == '/'
  {
    if line == "" then None
    else if line[0] != '/' then Some(Public(Trim(line)))
    else
      var cmd := Body(line);
      WordsMatchNoPattern(cmd);
      var nick := Find(NickPattern, cmd);
      var join := Find(JoinPattern, cmd);
      var priv := Find(PrivPattern, cmd);
      if nick.Some? then Some(Nick(nick.value.first))
      else if join.Some? then Some(Join(join.value.first))
      else if cmd == "leave" then Some(Leave)
      else if cmd == "bye" then Some(Bye)
      else if priv.Some? then Some(Priv(priv.value.first, priv.value.second))
      else if |cmd| > 0 && cmd[0] == '/' then Some(Public(cmd))
      else Some(Unknown)
  }

  /** "leave" and "bye" hold no space, so the patterns tried before them cannot match them. */
  lemma WordsMatchNoPattern(cmd: string)
    ensures cmd == "leave" || cmd == "bye" ==> Find(NickPattern, cmd).None? && Find(JoinPattern, cmd).None?
  {
    if cmd == "leave" || cmd == "bye" {
      NoSpaceNoMatch(NickPattern, cmd);
      NoSpaceNoMatch(JoinPattern, cmd);
    }
  }
}
