/**
 * CommandManager.handle: trim the message, pick the prefix (a leading mention
 * of the bot wins over the configured one), stop silently on ordinary chat,
 * strip the prefix, split the rest into tokens, find the command by label or
 * alias, descend one level into a sub-command by label, and run `execute`,
 * routing whatever it throws to the exception handler.
 */
module CommandManager {
  import opened Wrappers
  import opened JavaText
  import opened Tokenizer
  import opened Commands
  import opened ArgumentFactories
  import opened Execution

  /** `"<@!" + selfId + "> "`: how a message that mentions the bot starts. */
  function Mention(selfId: string): (m: string)
    ensures |m| > 0 && m[|m| - 1] == ' '
  {
    "<@!" + selfId + "> "
  }

  /**
   * The text left once the prefix is stripped, or None where `handle` returns
   * silently: a prefix is in force and the message does not start with it or
   * is nothing but it.
   */
  function StripPrefix(content: string, configured: Option<string>, selfId: string): Option<string>
  {
    var mention := Mention(selfId);
    var prefix := if StartsWith(content, mention) && content != mention then Some(mention) else configured;
    if prefix.Some? && (!StartsWith(content, prefix.value) || content == prefix.value) then None
    else if StartsWith(content, mention) then Some(content[|mention|..])
    else if prefix.Some? && StartsWith(content, prefix.value) then Some(content[|prefix.value|..])
    else Some(content)
  }

  /** The label filter of `handle`: some alias, or the label, equals `token` ignoring case. */
  predicate Names(c: Command, token: string)
  {
    (exists a :: a in c.aliases && EqualsIgnoreCase(a, token)) || EqualsIgnoreCase(c.name, token)
  }

  /** Index of the first registered command that `token` names, if any. */
  function FindCommand(commands: seq<Command>, token: string): (r: Option<nat>)
    ensures r.Some? ==> (
      && r.value < |commands| && Names(commands[r.value], token)
      && forall j :: 0 <= j < r.value ==> !Names(commands[j], token))
    ensures r.None? ==> forall j :: 0 <= j < |commands| ==> !Names(commands[j], token)
  {
    if commands == [] then None
    else if Names(commands[0], token) then Some(0)
    else
      match FindCommand(commands[1..], token)
      case None => None
      case Some(k) => Some(k + 1)
  }

  /** Index of the first sub-command whose label (never an alias) equals `token` ignoring case, if any. */
  function FindSubCommand(subCommands: seq<Command>, token: string): (r: Option<nat>)
    ensures r.Some? ==> (
      && r.value < |subCommands| && EqualsIgnoreCase(subCommands[r.value].name, token)
      && forall j :: 0 <= j < r.value ==> !EqualsIgnoreCase(subCommands[j].name, token))
    ensures r.None? ==> forall j :: 0 <= j < |subCommands| ==> !EqualsIgnoreCase(subCommands[j].name, token)
  {
    if subCommands == [] then None
    else if EqualsIgnoreCase(subCommands[0].name, token) then Some(0)
    else
      match FindSubCommand(subCommands[1..], token)
      case None => None
      case Some(k) => Some(k + 1)
  }

  /**
   * Where a tokenized message goes: the command found and the arguments after
   * its label (what errors are routed with), the command actually executed and
   * its arguments, and whether the typing indicator is sent first.
   */
  datatype Route = Route(command: Command, args: seq<string>, target: Command, targetArgs: seq<string>, typing: bool)

  /** The lookups of `handle` on the token list; None where it returns silently. */
  function Resolve(commands: seq<Command>, tokens: seq<string>): Option<Route>
  {
    if tokens == [] then None
    else
      match FindCommand(commands, tokens[0])
      case None => None
      case Some(i) =>
        var command := commands[i];
        var args := tokens[1..];
        var sub := if |args| > 0 then FindSubCommand(command.subCommands, args[0]) else None;
        if sub.Some? then Some(Route(command, args, command.subCommands[sub.value], args[1..], false))
        else Some(Route(command, args, command, args, !command.noTyping))
  }

  /**
   * What the message brought about: nothing at all; an error handed to the
   * exception handler with the command and arguments it was given; a call a
   * filter cancelled; or a handler that ran, with whether the message was
   * deleted and what was sent. `typingSent` says whether the typing indicator
   * was sent before `execute`.
   */
  datatype Outcome =
    | NoDispatch
    | Routed(command: Command, args: seq<string>, error: Error, typingSent: bool)
    | Cancelled(typingSent: bool)
    | Ran(typingSent: bool, deleted: bool, sent: Sent)

  /**
   * What `handle` makes of `execute`'s end: an exception thrown by `execute`
   * is routed with the command found and all its arguments; a handler failure
   * was routed inside `execute` with the command executed and its arguments.
   */
  function Deliver(route: Route, r: ExecResult): Outcome
  {
    match r
    case Threw(e) => Routed(route.command, route.args, e, route.typing)
    case HandlerFailed(e) => Routed(route.target, route.targetArgs, e, route.typing)
    case CallCancelled => Cancelled(route.typing)
    case Completed(deleted, sent) => Ran(route.typing, deleted, sent)
  }

  /**
   * What `handle` does with the token list once the prefix is gone. This is
   * the specification; the method Dispatch performs it statement by statement.
   */
  function DispatchSpec(tokens: seq<string>, commands: seq<Command>, ctx: Context, factories: map<string, Factory>,
                        env: Collaborators): Outcome
  {
    match Resolve(commands, tokens)
    case None => NoDispatch
    case Some(route) => Deliver(route, ExecuteSpec(ctx, route.target, route.targetArgs, factories, env))
  }

  /**
   * One call of `handle` on the raw message text, given the prefix the filter
   * runner reports for this context, the bot's user id, the registered
   * commands in order, the permissions of the context and the factories.
   * This is the specification; the method Handle performs it step by step.
   */
  function HandleSpec(raw: string, configured: Option<string>, selfId: string, commands: seq<Command>, ctx: Context,
                      factories: map<string, Factory>, env: Collaborators): Outcome
  {
    match StripPrefix(Trim(raw), configured, selfId)
    case None => NoDispatch
    case Some(body) => DispatchSpec(Tokenize(body), commands, ctx, factories, env)
  }

  /**
   * The lookups of `handle` on the token list, then `execute` and the routing
   * of its end, as the source writes them. Its specification is DispatchSpec.
   */
  method Dispatch(split: seq<string>, commands: seq<Command>, ctx: Context, factories: map<string, Factory>,
                  env: Collaborators) returns (o: Outcome)
    ensures o == DispatchSpec(split, commands, ctx, factories, env)
  {
    if |split| == 0 {
      return NoDispatch;
    }
    var found := FindCommand(commands, split[0]);
    if found.None? {
      return NoDispatch;
    }
    var command := commands[found.value];
    var args := split[1..];

    if |args| > 0 {
      var sub := FindSubCommand(command.subCommands, args[0]);
      if sub.Some? {
        var subCommand := command.subCommands[sub.value];
        var r := Execute(ctx, subCommand, args[1..], factories, env);
        return Deliver(Route(command, args, subCommand, args[1..], false), r);
      }
    }

    var typing := !command.noTyping;
    var r := Execute(ctx, command, args, factories, env);
    o := Deliver(Route(command, args, command, args, typing), r);
  }

  /** `handle`, step by step as the source writes it. Its specification is HandleSpec. */
  method Handle(raw: string, configured: Option<string>, selfId: string, commands: seq<Command>, ctx: Context,
                factories: map<string, Factory>, env: Collaborators) returns (o: Outcome)
    ensures o == HandleSpec(raw, configured, selfId, commands, ctx, factories, env)
  {
    var stripped := StripPrefix(Trim(raw), configured, selfId);
    if stripped.None? {
      return NoDispatch;
    }
    var split := SplitWithQuotes(stripped.value);
    o := Dispatch(split, commands, ctx, factories, env);
  }

  // Properties of the prefix gate.

  /**
   * A trimmed message never ends in a space, so it is never exactly the
   * mention: the `!content.equals(botMention)` test of `handle` always passes.
   */
  lemma TrimmedIsNeverMention(raw: string, selfId: string)
    ensures Trim(raw) != Mention(selfId)
  {
    var m := Mention(selfId);
    assert IsTrimmable(m[|m| - 1]);
  }

  /**
   * Without a leading mention the configured prefix decides: with no prefix the
   * whole message is kept; with prefix `p` the message is dropped when it does
   * not start with `p` or is exactly `p`, and otherwise `p` is cut off.
   */
  lemma ConfiguredPrefixGate(content: string, configured: Option<string>, selfId: string)
    requires !StartsWith(content, Mention(selfId))
    ensures configured.None? ==> StripPrefix(content, configured, selfId) == Some(content)
    ensures configured.Some? ==> (
      && (StripPrefix(content, configured, selfId).None?
          <==> !StartsWith(content, configured.value) || content == configured.value)
      && (StripPrefix(content, configured, selfId).Some?
          ==> StripPrefix(content, configured, selfId).value == content[|configured.value|..]))
  {
  }

  /** A message without the configured prefix, or equal to it, dispatches nothing and routes nothing. */
  lemma UnprefixedMessageIgnored(raw: string, p: string, selfId: string, commands: seq<Command>, ctx: Context,
                                 factories: map<string, Factory>, env: Collaborators)
    requires !StartsWith(Trim(raw), Mention(selfId))
    requires !StartsWith(Trim(raw), p) || Trim(raw) == p
    ensures HandleSpec(raw, Some(p), selfId, commands, ctx, factories, env) == NoDispatch
  {
    ConfiguredPrefixGate(Trim(raw), Some(p), selfId);
  }

  /**
   * A leading mention of the bot replaces the configured prefix: it is what
   * gets stripped, and the configured prefix (or its absence) changes nothing.
   */
  lemma MentionReplacesPrefix(raw: string, configured: Option<string>, selfId: string, commands: seq<Command>,
                              ctx: Context, factories: map<string, Factory>, env: Collaborators)
    requires StartsWith(Trim(raw), Mention(selfId))
    ensures StripPrefix(Trim(raw), configured, selfId) == Some(Trim(raw)[|Mention(selfId)|..])
    ensures HandleSpec(raw, configured, selfId, commands, ctx, factories, env)
      == HandleSpec(raw, None, selfId, commands, ctx, factories, env)
  {
    TrimmedIsNeverMention(raw, selfId);
  }

  // Properties of the lookups.

  /** Whether a command is named by a token depends on the token only up to case. */
  lemma NamesIgnoresCase(c: Command, t: string, t': string)
    requires EqualsIgnoreCase(t, t')
    ensures Names(c, t) <==> Names(c, t')
  {
    forall a | a in c.aliases + [c.name]
      ensures EqualsIgnoreCase(a, t) <==> EqualsIgnoreCase(a, t')
    {
      EqualsIgnoreCaseIsEquivalence(a, t, t');
      EqualsIgnoreCaseIsEquivalence(a, t', t);
      EqualsIgnoreCaseIsEquivalence(t, t', a);
    }
    assert c.name in c.aliases + [c.name];
  }

  lemma {:induction false} FindCommandIgnoresCase(commands: seq<Command>, t: string, t': string)
    requires EqualsIgnoreCase(t, t')
    ensures FindCommand(commands, t) == FindCommand(commands, t')
  {
    if commands != [] {
      NamesIgnoresCase(commands[0], t, t');
      FindCommandIgnoresCase(commands[1..], t, t');
    }
  }

  /** `HELP`, `help` and `Help` reach the same command: the lookup ignores the case of the first token. */
  lemma ResolveIgnoresCase(commands: seq<Command>, t: string, t': string, rest: seq<string>)
    requires EqualsIgnoreCase(t, t')
    ensures Resolve(commands, [t] + rest) == Resolve(commands, [t'] + rest)
  {
    FindCommandIgnoresCase(commands, t, t');
    assert ([t] + rest)[1..] == rest == ([t'] + rest)[1..];
  }

  /**
   * A message resolves exactly when it has a first token that some registered
   * command names, and then to the first such command in registry order.
   */
  lemma ResolveFindsFirstCommand(commands: seq<Command>, tokens: seq<string>)
    ensures Resolve(commands, tokens).Some?
      <==> tokens != [] && exists i :: 0 <= i < |commands| && Names(commands[i], tokens[0])
    ensures Resolve(commands, tokens).Some? ==> (
      && Resolve(commands, tokens).value.args == tokens[1..]
      && exists i :: 0 <= i < |commands| && commands[i] == Resolve(commands, tokens).value.command
           && Names(commands[i], tokens[0])
           && forall j :: 0 <= j < i ==> !Names(commands[j], tokens[0]))
  {
    if tokens != [] {
      var found := FindCommand(commands, tokens[0]);
      if found.Some? {
        assert commands[found.value] == Resolve(commands, tokens).value.command;
      }
    }
  }

  /** Some direct sub-command of `command` has `token` as its label, ignoring case. */
  predicate HasSubCommandLabel(command: Command, token: string)
  {
    exists j :: 0 <= j < |command.subCommands| && EqualsIgnoreCase(command.subCommands[j].name, token)
  }

  /**
   * After the command, a second token that is the label of a direct
   * sub-command (aliases do not count) makes the first such sub-command the
   * one executed, with the tokens after it, and no typing indicator; otherwise
   * the command itself is executed with all its arguments, with the typing
   * indicator unless it is marked NoTyping.
   */
  lemma ResolveSubCommand(commands: seq<Command>, tokens: seq<string>, route: Route)
    requires Resolve(commands, tokens) == Some(route)
    ensures |tokens| >= 1 && route.args == tokens[1..]
    ensures |tokens| >= 2 && HasSubCommandLabel(route.command, tokens[1]) ==> (
        && (exists j :: 0 <= j < |route.command.subCommands| && route.target == route.command.subCommands[j]
              && (forall k :: 0 <= k < j ==> !EqualsIgnoreCase(route.command.subCommands[k].name, tokens[1])))
        && EqualsIgnoreCase(route.target.name, tokens[1])
        && route.targetArgs == tokens[2..]
        && !route.typing)
    ensures !(|tokens| >= 2 && HasSubCommandLabel(route.command, tokens[1]))
      ==> route.target == route.command && route.targetArgs == tokens[1..] && route.typing == !route.command.noTyping
  {
    var command := route.command;
    if |tokens| >= 2 {
      var sub := FindSubCommand(command.subCommands, tokens[1]);
      if sub.Some? {
        assert route.target == command.subCommands[sub.value];
      }
      assert tokens[1..][1..] == tokens[2..];
    }
  }

  // Properties of one call of `handle`.

  /**
   * Only a message that carries the prefix and names a registered command can
   * reach `execute`; everything else is ordinary chat and is neither answered
   * nor routed to the exception handler.
   */
  lemma ChatIsSilent(raw: string, configured: Option<string>, selfId: string, commands: seq<Command>, ctx: Context,
                     factories: map<string, Factory>, env: Collaborators)
    requires HandleSpec(raw, configured, selfId, commands, ctx, factories, env) != NoDispatch
    ensures StripPrefix(Trim(raw), configured, selfId).Some?
    ensures Resolve(commands, Tokenize(StripPrefix(Trim(raw), configured, selfId).value)).Some?
  {
  }

  /**
   * Errors thrown by `execute` (permissions, binding, filters) are routed with
   * the command found and all the tokens after its label, even when a
   * sub-command was executed; a handler's failure is routed with the command
   * executed and its own arguments. Nothing is deleted or sent on either path.
   */
  lemma ErrorsRoutedOnce(route: Route, r: ExecResult)
    ensures r.Threw? ==> Deliver(route, r) == Routed(route.command, route.args, r.error, route.typing)
    ensures r.HandlerFailed? ==> Deliver(route, r) == Routed(route.target, route.targetArgs, r.failure, route.typing)
    ensures Deliver(route, r).Ran? <==> r.Completed?
  {
  }

  /** The tokens of the example below. */
  lemma BanTokens()
    ensures Tokenize("ban @alice") == ["ban", "@alice"]
  {
    var s := "ban @alice";
    assert WordEnd(s, 0) == 3 by {
      assert WordEnd(s, 2) == 3;
      assert WordEnd(s, 1) == 3;
    }
    assert WordEnd(s, 4) == 10 by {
      assert WordEnd(s, 9) == 10;
      assert WordEnd(s, 8) == 10;
      assert WordEnd(s, 7) == 10;
      assert WordEnd(s, 6) == 10;
      assert WordEnd(s, 5) == 10;
    }
    assert Scan(s, 4) == [Match(4, 10, false)];
    assert Scan(s, 0) == [Match(0, 3, false), Match(4, 10, false)];
    assert s[0..3] == "ban" && s[4..10] == "@alice";
  }

  /** `!ban @alice` under the prefix `!` leaves `ban @alice`. */
  lemma BanPrefix(selfId: string)
    ensures StripPrefix(Trim("!ban @alice"), Some("!"), selfId) == Some("ban @alice")
  {
    var content := "!ban @alice";
    TrimKeepsUntrimmable(content);
    var mention := Mention(selfId);
    assert mention[0] == '<' && content[0] == '!';
    assert !StartsWith(content, mention);
    assert StartsWith(content, "!") && content != "!";
    assert content[1..] == "ban @alice";
  }

  /** The `ban` command of the end-to-end example: alias `b`, one required `user` argument. */
  function BanCommand(): Command
  {
    Command("ban", ["b"], [], [ArgumentDecl("user", true, "user")], [], [], false, [], "ban")
  }

  /**
   * Collaborators for the example: filters pass the flag on, the user factory
   * wraps its token, and the handler answers `banned` when it is given the
   * user made of `@alice`.
   */
  function BanEnv(): Collaborators
  {
    Collaborators(
      (f: FilterId, c: Command, cancelled: bool, m: ArgumentMap) => Proceed(cancelled),
      (h: HandlerId, m: ArgumentMap) =>
        if m == map["user" := ForeignValue("user", "@alice")] then Returned(ObjectReply("banned")) else HandlerThrew("?"),
      (name: string, arg: string) => Success(ForeignValue(name, arg)))
  }

  /** `ban @alice` reaches `ban` itself, with `@alice` as its only argument and typing on. */
  lemma BanRoute()
    ensures Resolve([BanCommand()], ["ban", "@alice"])
         == Some(Route(BanCommand(), ["@alice"], BanCommand(), ["@alice"], true))
  {
    assert Names(BanCommand(), "ban");
    assert ["ban", "@alice"][1..] == ["@alice"];
  }

  /** The one token `@alice` binds `user` through the user factory. */
  lemma BanBinds()
    ensures Bind(BanCommand(), ["@alice"], BuiltIns(), BanEnv().foreign)
         == Success(map["user" := ForeignValue("user", "@alice")])
  {
    assert Lookup(BuiltIns(), "user") == Some(Foreign("user"));
    var supplied := map[][ "user" := ForeignValue("user", "@alice")];
    assert BindFrom(BanCommand(), ["@alice"], BuiltIns(), BanEnv().foreign, 1, supplied) == Success(supplied);
  }

  /**
   * The end-to-end example: `!ban @alice` under the prefix `!` reaches the
   * handler with `user` bound to what the user factory makes of `@alice`;
   * the typing indicator goes first, nothing is deleted without
   * MESSAGE_MANAGE, and the handler's text is sent.
   */
  lemma BanExample(selfId: string, ctx: Context)
    requires ctx.botPermissions == {} && ctx.userPermissions == {}
    ensures HandleSpec("!ban @alice", Some("!"), selfId, [BanCommand()], ctx, BuiltIns(), BanEnv())
         == Ran(true, false, SentText("banned"))
  {
    BanPrefix(selfId);
    BanTokens();
    BanRoute();
    BanBinds();
    assert HandleSpec("!ban @alice", Some("!"), selfId, [BanCommand()], ctx, BuiltIns(), BanEnv())
        == DispatchSpec(["ban", "@alice"], [BanCommand()], ctx, BuiltIns(), BanEnv());
    var argsMap := map["user" := ForeignValue("user", "@alice")];
    assert RunFilters(BanCommand(), [], false, argsMap, BanEnv().filter) == Success(false);
    assert ExecuteSpec(ctx, BanCommand(), ["@alice"], BuiltIns(), BanEnv()) == Completed(false, SentText("banned"));
  }
}
