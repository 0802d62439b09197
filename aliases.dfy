/**
 * The Aliases module: a private message that starts with the alias prefix
 * calls an alias, named by the word after the prefix, with the tokens of the
 * rest of the line as its arguments.
 */
module Aliases {
  import opened Wrappers
  import opened Chars
  import opened Strings
  import opened IrcPeers
  import opened StringTokenizer

  /** string.Compare(a, b, true) == 0: equal ignoring case, and null equals only null. */
  predicate SameNickname(a: Option<string>, b: Option<string>) {
    (a.None? && b.None?) || (a.Some? && b.Some? && Upper(a.value) == Upper(b.value))
  }

  /** line.StartsWith(prefix, StringComparison.Ordinal) */
  predicate StartsWith(line: string, prefix: string) {
    |prefix| <= |line| && line[..|prefix|] == prefix
  }

  /** The alias name: the text after the prefix up to its first space. */
  function AliasName(line: string, prefix: string): (r: string)
    requires StartsWith(line, prefix)
    ensures ' ' !in r
  {
    Split(line[|prefix|..], ' ')[0]
  }

  /** The argument string: everything after the first space of the line, or "" when nothing follows one. */
  function ParameterString(line: string): (r: string)
    ensures ' ' !in line ==> r == ""
    ensures ' ' in line && IndexOf(line, ' ') + 1 < |line| ==> r == line[IndexOf(line, ' ') + 1..]
  {
    var firstSpace := IndexOf(line, ' ');
    if firstSpace >= 0 && |line| > firstSpace + 1 then line[firstSpace + 1..] else ""
  }

  /** AliasEventArgs: the alias name, its arguments and where to reply. */
  datatype AliasCall = AliasCall(name: string, arguments: seq<string>, replyTo: Target)

  /** The ReplyTo choice: the channel the message went to, otherwise the sender. */
  function ReplyTo(from: Prefix, to: Target): (r: Target)
    ensures to.IsChannel() ==> r == to
    ensures !to.IsChannel() ==> r == TargetOfPrefix(from) && !r.IsChannel()
  {
    if to.IsChannel() then to else TargetOfPrefix(from)
  }

  /**
   * Aliases.Irc_PrivateMessaged: the alias a private message calls, if any. A
   * message from the bot itself calls nothing; a line that is only the prefix
   * calls nothing; decoding a malformed argument throws.
   */
  function AliasOf(from: Prefix, to: Target, text: string, nickname: Option<string>, prefix: string): (r: Result<Option<AliasCall>>)
    ensures SameNickname(from.nickname, nickname) ==> r == Success(None)
    ensures !SameNickname(from.nickname, nickname) && !(StartsWith(Trim(text), prefix) && |Trim(text)| > |prefix|) ==>
      r == Success(None)
    ensures r.Success? && r.value.Some? ==>
      (r.value.value.name == AliasName(Trim(text), prefix)
       && Tokens(ParameterString(Trim(text))) == Success(r.value.value.arguments)
       && r.value.value.replyTo == ReplyTo(from, to))
    ensures r.Failure? <==>
      !SameNickname(from.nickname, nickname) && StartsWith(Trim(text), prefix) && |Trim(text)| > |prefix|
      && Tokens(ParameterString(Trim(text))).Failure?
  {
    if SameNickname(from.nickname, nickname) then Success(None)
    else
      var line := Trim(text);
      if StartsWith(line, prefix) && |line| > |prefix| then
        match Tokens(ParameterString(line))
        case Failure(e) => Failure(e)
        case Success(arguments) => Success(Some(AliasCall(AliasName(line, prefix), arguments, ReplyTo(from, to))))
      else Success(None)
  }

  /**
   * A line made of the prefix, an alias name, a space and an argument string
   * calls that alias with that argument string, when neither the prefix nor
   * the name has a space.
   */
  lemma AliasLine(prefix: string, name: string, parameters: string)
    requires ' ' !in prefix && ' ' !in name && |name| > 0 && |parameters| > 0
    ensures var line := prefix + name + [' '] + parameters;
      StartsWith(line, prefix) && |line| > |prefix|
      && AliasName(line, prefix) == name && ParameterString(line) == parameters
  {
    var line := prefix + name + [' '] + parameters;
    assert line[|prefix|..] == name + [' '] + parameters;
    SplitFirst(name, ' ', parameters);
    NotInJoined(' ', prefix, name[0], name[1..]);
    assert prefix + name == prefix + [name[0]] + name[1..];
    IndexOfAfterFree(prefix + name, ' ', parameters);
    assert line[|prefix + name| + 1..] == parameters;
  }

  /** A line with no space after the prefix calls the alias it names with no arguments. */
  lemma AliasLineAlone(prefix: string, name: string)
    requires ' ' !in prefix && ' ' !in name && |name| > 0
    ensures var line := prefix + name;
      StartsWith(line, prefix) && |line| > |prefix|
      && AliasName(line, prefix) == name && ParameterString(line) == "" && Tokens("") == Success([])
  {
    var line := prefix + name;
    assert line[|prefix|..] == name;
    assert IndexOf(name, ' ') < 0;
    NotInJoined(' ', prefix, name[0], name[1..]);
    assert prefix + name == prefix + [name[0]] + name[1..];
  }

  /**
   * The whole round trip: a message "prefix name args" from someone else, with
   * the arguments written as a command line, calls alias name with exactly args.
   */
  lemma AliasCallRoundTrip(from: Prefix, to: Target, nickname: Option<string>, prefix: string, name: string, args: seq<string>)
    requires !SameNickname(from.nickname, nickname)
    requires ' ' !in prefix && ' ' !in name && |name| > 0 && |args| > 0
    requires var line := prefix + name + [' '] + CommandLine(args);
      !IsWhiteSpace(line[0]) && !IsWhiteSpace(line[|line| - 1])
    ensures AliasOf(from, to, prefix + name + [' '] + CommandLine(args), nickname, prefix)
      == Success(Some(AliasCall(name, args, ReplyTo(from, to))))
  {
    var line := prefix + name + [' '] + CommandLine(args);
    TrimNoop(line);
    TokenizeCommandLine(args);
    assert line[|line| - 1] != ' ';
    AliasLine(prefix, name, CommandLine(args));
  }
}
