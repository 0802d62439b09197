/**
 * The peers of an IRC message: the prefix naming who sent it (a server, or a
 * user as nick!user@host) and the target it was sent to (a channel whose name
 * starts with '#' or '&', a host mask, a full user or a bare nickname), as
 * section 1.3 of RFC 1459 names them. Both are immutable once parsed.
 */
module IrcPeers {
  import opened Wrappers
  import opened Strings

  /** C#'s string concatenation, which reads a null operand as "". */
  function Text(s: Option<string>): string {
    if s.Some? then s.value else ""
  }

  /** The user mask nick!user@host. */
  function UserMask(nick: string, user: string, host: string): string {
    nick + "!" + user + "@" + host
  }

  /** A user mask whose parts split back apart: the parts Parse would read out of it. */
  predicate WellFormedUser(nick: string, user: string, host: string) {
    |nick| > 0 && '!' !in nick && '@' !in nick && '!' !in user && '@' !in user && '@' !in host
  }

  /** The split of a well-formed user mask into its parts. */
  lemma SplitUserMask(nick: string, user: string, host: string)
    requires WellFormedUser(nick, user, host)
    ensures var p := UserMask(nick, user, host);
      IndexOf(p, '@') > 0 && IndexOf(p, '!') > 0
      && Split(p, '@') == [nick + "!" + user, host]
      && Split(Split(p, '@')[0], '!') == [nick, user]
  {
    var p := UserMask(nick, user, host);
    var front := nick + "!" + user;
    assert p == front + ['@'] + host;
    assert front == nick + ['!'] + user;
    NotInJoined('@', nick, '!', user);
    IndexOfAfterFree(front, '@', host);
    assert p == nick + ['!'] + (user + "@" + host);
    IndexOfAfterFree(nick, '!', user + "@" + host);
    assert Join([front, host], '@') == p;
    SplitJoin([front, host], '@');
    assert Join([nick, user], '!') == front;
    SplitJoin([nick, user], '!');
  }

  // ---------------------------------------------------------------------------
  // IrcPrefix
  // ---------------------------------------------------------------------------

  /** IrcPrefix: every part may be null; a prefix without a nickname is a server. */
  datatype Prefix = Prefix(hostName: Option<string>, userName: Option<string>, nickname: Option<string>, nickUserHost: Option<string>)
  {
    /** IrcPrefix.IsServer */
    predicate IsServer() { nickname.None? }
  }

  /** IrcPrefix.ToString: the host name of a server, nick!user@host for a user. */
  function PrefixToString(p: Prefix): (r: Option<string>)
    ensures p.IsServer() ==> r == p.hostName
    ensures !p.IsServer() ==> r == Some(UserMask(p.nickname.value, Text(p.userName), Text(p.hostName)))
  {
    if p.IsServer() then p.hostName
    else Some(Text(p.nickname) + "!" + Text(p.userName) + "@" + Text(p.hostName))
  }

  /**
   * The user branch of IrcPrefix.Parse and IrcTarget.Parse: the host name is the
   * second '@'-piece, the nickname and user name the first two '!'-pieces of the
   * first '@'-piece. Indexing a missing '!'-piece throws.
   */
  function SplitUser(s: string): (r: Result<(string, string, string)>)
    requires '@' in s
    ensures r.Success? <==> '!' in Split(s, '@')[0]
  {
    var at := Split(s, '@');
    SplitCount(s, '@');
    var bang := Split(at[0], '!');
    SplitCount(at[0], '!');
    if |bang| < 2 then
      Failure(IndexOutOfRange)
    else
      Success((bang[0], bang[1], at[1]))
  }

  /** A split has a second piece exactly when the separator occurs. */
  lemma SplitCount(s: string, sep: char)
    ensures |Split(s, sep)| >= 2 <==> sep in s
  {
  }

  /** Both '@' and '!' occur after the first character. */
  predicate LooksLikeUser(s: string) {
    IndexOf(s, '@') > 0 && IndexOf(s, '!') > 0
  }

  /** IrcPrefix.Parse: null stays null, a user mask splits into its parts, anything else is a server. */
  function ParsePrefix(profile: Option<string>): (r: Result<Option<Prefix>>)
    ensures profile.None? ==> r == Success(None)
    ensures profile.Some? && !LooksLikeUser(profile.value) ==>
      r == Success(Some(Prefix(profile, None, None, None)))
    ensures profile.Some? && LooksLikeUser(profile.value) ==>
      (r.Success? <==> '!' in Split(profile.value, '@')[0])
      && (r.Success? ==> r.value.Some? && !r.value.value.IsServer() && r.value.value.nickUserHost == profile)
  {
    if profile.None? then Success(None)
    else
      var s := profile.value;
      if LooksLikeUser(s) then
        match SplitUser(s)
        case Failure(e) => Failure(e)
        case Success(parts) => Success(Some(Prefix(Some(parts.2), Some(parts.1), Some(parts.0), profile)))
      else Success(Some(Prefix(profile, None, None, None)))
  }

  /** A server name: a string that does not look like a user mask comes back unchanged. */
  lemma ServerPrefixRoundTrip(s: string)
    requires !LooksLikeUser(s)
    ensures ParsePrefix(Some(s)).Success? && ParsePrefix(Some(s)).value.Some?
    ensures ParsePrefix(Some(s)).value.value.IsServer()
    ensures PrefixToString(ParsePrefix(Some(s)).value.value) == Some(s)
  {
  }

  /** A well-formed nick!user@host parses into its parts and prints back unchanged. */
  lemma UserPrefixRoundTrip(nick: string, user: string, host: string)
    requires WellFormedUser(nick, user, host)
    ensures var p := UserMask(nick, user, host);
      ParsePrefix(Some(p)) == Success(Some(Prefix(Some(host), Some(user), Some(nick), Some(p))))
      && PrefixToString(ParsePrefix(Some(p)).value.value) == Some(p)
  {
    SplitUserMask(nick, user, host);
  }

  /** A mask whose first '!' comes after its first '@' makes Parse throw, e.g. "a@b!c". */
  lemma PrefixBangAfterAt(a: string, b: string, c: string)
    requires |a| > 0 && '@' !in a && '!' !in a && '@' !in b && '!' !in b
    ensures ParsePrefix(Some(a + "@" + b + "!" + c)) == Failure(IndexOutOfRange)
  {
    var s := a + "@" + b + "!" + c;
    assert s == a + ['@'] + (b + "!" + c);
    IndexOfAfterFree(a, '@', b + "!" + c);
    SplitFirst(a, '@', b + "!" + c);
    var front := a + ['@'] + b;
    assert s == front + ['!'] + c;
    NotInJoined('!', a, '@', b);
    IndexOfAfterFree(front, '!', c);
  }

  // ---------------------------------------------------------------------------
  // IrcTarget
  // ---------------------------------------------------------------------------

  /** IrcTarget: a channel, or a user whose parts may each be null. */
  datatype Target =
    | ChannelTarget(channel: string)
    | UserTarget(nickname: Option<string>, userName: Option<string>, hostName: Option<string>, nickUserHost: Option<string>)
  {
    /** IrcTarget.IsChannel */
    predicate IsChannel() { ChannelTarget? }
  }

  /** new IrcTarget(IrcPrefix): the prefix's parts, never a channel. */
  function TargetOfPrefix(p: Prefix): (r: Target)
    ensures !r.IsChannel()
  {
    UserTarget(p.nickname, p.userName, p.hostName, p.nickUserHost)
  }

  /** A target made from a parsed prefix prints as the prefix does. */
  lemma PrefixTargetAgree(s: string)
    requires ParsePrefix(Some(s)).Success?
    ensures var p := ParsePrefix(Some(s)).value.value;
      TargetToString(TargetOfPrefix(p)) == PrefixToString(p)
  {
  }

  /** IrcTarget.ToString */
  function TargetToString(t: Target): (r: Option<string>)
    ensures t.IsChannel() ==> r == Some(t.channel)
    ensures t.UserTarget? && t.nickname.None? && t.userName.None? ==> r == t.hostName
    ensures t.UserTarget? && t.nickname.Some? && t.userName.Some? && t.hostName.Some? ==>
      r == Some(UserMask(t.nickname.value, t.userName.value, t.hostName.value))
  {
    match t
    case ChannelTarget(c) => Some(c)
    case UserTarget(nick, user, host, _) =>
      if nick.None? && user.None? then host
      else if nick.Some? && user.Some? && host.Some? then Some(nick.value + "!" + user.value + "@" + host.value)
      else nick
  }

  /** A channel name: the string starts with '#' or '&'. */
  predicate IsChannelName(s: string) {
    |s| > 0 && (s[0] == '#' || s[0] == '&')
  }

  /** IrcTarget.Parse: a channel, a host-only mask with a '*', a full user, or a bare nickname. */
  function ParseTarget(s: string): (r: Result<Target>)
    ensures r.Success? ==> (r.value.IsChannel() <==> IsChannelName(s))
    ensures IsChannelName(s) ==> r == Success(ChannelTarget(s))
    ensures !IsChannelName(s) && IndexOf(s, '*') > 0 ==> r == Success(UserTarget(None, None, Some(s), None))
    ensures !IsChannelName(s) && IndexOf(s, '*') <= 0 && !LooksLikeUser(s) ==> r == Success(UserTarget(Some(s), None, None, None))
    ensures !IsChannelName(s) && IndexOf(s, '*') <= 0 && LooksLikeUser(s) ==>
      (r.Success? <==> '!' in Split(s, '@')[0])
      && (r.Success? ==> r.value.nickUserHost == Some(s))
  {
    if IsChannelName(s) then Success(ChannelTarget(s))
    else if IndexOf(s, '*') > 0 then Success(UserTarget(None, None, Some(s), None))
    else if LooksLikeUser(s) then
      match SplitUser(s)
      case Failure(e) => Failure(e)
      case Success(parts) => Success(UserTarget(Some(parts.0), Some(parts.1), Some(parts.2), Some(s)))
    else Success(UserTarget(Some(s), None, None, None))
  }

  /**
   * Printing a parsed target gives the text back for the channel, host-mask and
   * nickname forms.
   */
  lemma TargetRoundTrip(s: string)
    requires IsChannelName(s) || IndexOf(s, '*') > 0 || !LooksLikeUser(s)
    ensures ParseTarget(s).Success? && TargetToString(ParseTarget(s).value) == Some(s)
  {
  }

  lemma NoStarAfterFirst(nick: string, user: string, host: string)
    requires |nick| > 0 && '*' !in nick[1..] && '*' !in user && '*' !in host
    ensures IndexOf(UserMask(nick, user, host), '*') <= 0
  {
    var t := UserMask(nick, user, host);
    var rest := nick[1..] + "!" + user + "@" + host;
    assert t == [nick[0]] + rest;
    assert '*' !in rest;
    assert forall i :: 1 <= i < |t| ==> t[i] == rest[i - 1];
  }

  /** ... and for a well-formed full user mask with no '*' after its first character. */
  lemma UserTargetRoundTrip(nick: string, user: string, host: string)
    requires WellFormedUser(nick, user, host)
    requires !IsChannelName(nick)
    requires '*' !in nick[1..] && '*' !in user && '*' !in host
    ensures var t := UserMask(nick, user, host);
      ParseTarget(t) == Success(UserTarget(Some(nick), Some(user), Some(host), Some(t)))
      && TargetToString(ParseTarget(t).value) == Some(t)
  {
    var t := UserMask(nick, user, host);
    SplitUserMask(nick, user, host);
    assert t[0] == nick[0];
    NoStarAfterFirst(nick, user, host);
  }
}
