/**
 * CommandManager.execute: the permission gate, the argument binder, the filter
 * chain over a CommandCall, and the call of the handler with the dispatch of
 * its result. `ExecuteSpec` states what one call does; the method `Execute`
 * does it the way the source does, loop by loop.
 */
module Execution {
  import opened Wrappers
  import opened Commands
  import opened ArgumentFactories

  /** A filter leaves the call's cancelled flag as it says, or throws. */
  datatype FilterOutcome = Proceed(cancelled: bool) | FilterThrew(cause: string)

  /** A handler returns a value or throws. */
  datatype HandlerOutcome = Returned(reply: Reply) | HandlerThrew(cause: string)

  /**
   * The code behind the command router that this model does not see: filter
   * bodies (given the filter, the command of the call, the current cancelled
   * flag and the bound arguments), handler bodies, and the converters of the
   * factories outside this model. Each sees the message context by closure.
   */
  datatype Collaborators = Collaborators(
    filter: (FilterId, Command, bool, ArgumentMap) -> FilterOutcome,
    handler: (HandlerId, ArgumentMap) -> HandlerOutcome,
    foreign: ForeignConverter)

  /**
   * How one `execute` ends: it throws (the caller routes the error), the
   * handler's failure is routed from inside, a filter cancelled the call, or
   * the handler ran (whether the message was deleted, and what was sent).
   */
  datatype ExecResult =
    | Threw(error: Error)
    | HandlerFailed(failure: Error)
    | CallCancelled
    | Completed(deleted: bool, sent: Sent)

  /** Index of the first permission in `required` that is not in `held`, or |required| when all are held. */
  function FirstMissing(required: seq<Permission>, held: set<Permission>): (k: nat)
    ensures k <= |required|
    ensures forall j :: 0 <= j < k ==> required[j] in held
    ensures k < |required| ==> required[k] !in held
  {
    if required == [] || required[0] !in held then 0 else 1 + FirstMissing(required[1..], held)
  }

  /** `arg.getFactory().process(token)` for one declared argument. */
  function Convert(decl: ArgumentDecl, token: string, factories: map<string, Factory>, foreign: ForeignConverter): Result<Value, Error>
  {
    match Lookup(factories, decl.factory)
    case None => Failure(MissingFactory(decl.factory))
    case Some(f) => Apply(f, token, foreign)
  }

  /**
   * The binding loop from declared argument `i` on, with `supplied` bound so
   * far, followed by the check for too many tokens. As in the source, every
   * declared argument is converted from the first token.
   */
  function BindFrom(command: Command, args: seq<string>, factories: map<string, Factory>, foreign: ForeignConverter,
                    i: nat, supplied: ArgumentMap): Result<ArgumentMap, Error>
    requires i <= |command.arguments|
    decreases |command.arguments| - i
  {
    if i == |command.arguments| then
      if i < |args| - 1 then Failure(WrongArgumentNumber(command, |args|)) else Success(supplied)
    else
      var decl := command.arguments[i];
      if i > |args| - 1 && decl.required then Failure(WrongArgumentNumber(command, |args|))
      else if |args| == 0 then Failure(ArgumentIndexOutOfBounds(0))
      else
        match Convert(decl, args[0], factories, foreign)
        case Failure(e) => Failure(e)
        case Success(v) => BindFrom(command, args, factories, foreign, i + 1, supplied[decl.key := v])
  }

  /** The ArgumentMap `execute` builds from the tokens, or the exception it throws while building it. */
  function Bind(command: Command, args: seq<string>, factories: map<string, Factory>, foreign: ForeignConverter): Result<ArgumentMap, Error>
  {
    BindFrom(command, args, factories, foreign, 0, map[])
  }

  /** The filter loop from the cancelled flag `cancelled` on: the final flag, or the first filter's exception. */
  function RunFilters(command: Command, filters: seq<FilterId>, cancelled: bool, argsMap: ArgumentMap,
                      filter: (FilterId, Command, bool, ArgumentMap) -> FilterOutcome): Result<bool, Error>
  {
    if filters == [] then Success(cancelled)
    else
      match filter(filters[0], command, cancelled, argsMap)
      case FilterThrew(cause) => Failure(FilterFailure(cause))
      case Proceed(next) => RunFilters(command, filters[1..], next, argsMap, filter)
  }

  /** What `context.send` is given for a handler's result. */
  function Render(reply: Reply): Sent
  {
    match reply
    case NullReply => NothingSent
    case EmbedReply(embed) => SentEmbed(embed)
    case ObjectReply(text) => SentText(text)
  }

  /** One call of `execute`. */
  function ExecuteSpec(ctx: Context, command: Command, args: seq<string>, factories: map<string, Factory>,
                       env: Collaborators): ExecResult
  {
    var bot := FirstMissing(command.botRequires, ctx.botPermissions);
    var user := FirstMissing(command.userRequires, ctx.userPermissions);
    if bot < |command.botRequires| then Threw(BotNotAllowed(command.botRequires[bot]))
    else if user < |command.userRequires| then Threw(UserNotAllowed(command.userRequires[user]))
    else
      match Bind(command, args, factories, env.foreign)
      case Failure(e) => Threw(e)
      case Success(argsMap) =>
        match RunFilters(command, command.filters, false, argsMap, env.filter)
        case Failure(e) => Threw(e)
        case Success(cancelled) =>
          if cancelled then CallCancelled
          else
            match env.handler(command.handler, argsMap)
            case HandlerThrew(cause) => HandlerFailed(HandlerFailure(cause))
            case Returned(reply) => Completed(MessageManage in ctx.botPermissions, Render(reply))
  }

  /** The per-invocation record the filters see; they may set its cancelled flag. */
  class CommandCall {
    const command: Command
    var cancelled: bool

    constructor (command: Command)
      ensures this.command == command && !cancelled
    {
      this.command := command;
      cancelled := false;
    }
  }

  /** `execute`, step by step. */
  method Execute(ctx: Context, command: Command, args: seq<string>, factories: map<string, Factory>,
                 env: Collaborators) returns (r: ExecResult)
    ensures r == ExecuteSpec(ctx, command, args, factories, env)
  {
    var k := 0;
    while k < |command.botRequires|
      invariant k <= |command.botRequires|
      invariant forall j :: 0 <= j < k ==> command.botRequires[j] in ctx.botPermissions
    {
      if command.botRequires[k] !in ctx.botPermissions {
        return Threw(BotNotAllowed(command.botRequires[k]));
      }
      k := k + 1;
    }
    k := 0;
    while k < |command.userRequires|
      invariant k <= |command.userRequires|
      invariant forall j :: 0 <= j < k ==> command.userRequires[j] in ctx.userPermissions
    {
      if command.userRequires[k] !in ctx.userPermissions {
        return Threw(UserNotAllowed(command.userRequires[k]));
      }
      k := k + 1;
    }

    var supplied: ArgumentMap := map[];
    var i := 0;
    while i < |command.arguments|
      invariant i <= |command.arguments|
      invariant Bind(command, args, factories, env.foreign) == BindFrom(command, args, factories, env.foreign, i, supplied)
    {
      var decl := command.arguments[i];
      if i > |args| - 1 && decl.required {
        return Threw(WrongArgumentNumber(command, |args|));
      }
      if |args| == 0 {
        return Threw(ArgumentIndexOutOfBounds(0));
      }
      var converted := Convert(decl, args[0], factories, env.foreign);
      if converted.Failure? {
        return Threw(converted.error);
      }
      supplied := supplied[decl.key := converted.value];
      i := i + 1;
    }
    if i < |args| - 1 {
      return Threw(WrongArgumentNumber(command, |args|));
    }
    var argsMap := supplied;

    var call := new CommandCall(command);
    var f := 0;
    while f < |command.filters|
      invariant f <= |command.filters|
      invariant call.command == command
      invariant RunFilters(command, command.filters, false, argsMap, env.filter)
        == RunFilters(command, command.filters[f..], call.cancelled, argsMap, env.filter)
    {
      var outcome := env.filter(command.filters[f], call.command, call.cancelled, argsMap);
      if outcome.FilterThrew? {
        return Threw(FilterFailure(outcome.cause));
      }
      call.cancelled := outcome.cancelled;
      assert command.filters[f..][1..] == command.filters[f + 1..];
      f := f + 1;
    }

    if call.cancelled {
      return CallCancelled;
    }
    match env.handler(command.handler, argsMap)
    case HandlerThrew(cause) =>
      r := HandlerFailed(HandlerFailure(cause));
    case Returned(reply) =>
      var deleted := MessageManage in ctx.botPermissions;
      r := Completed(deleted, Render(reply));
  }

  // Properties of one call of `execute`.

  /** The first bot permission missing, in declaration order, is the one raised, whatever else holds. */
  lemma BotPermissionsCheckedFirst(ctx: Context, command: Command, args: seq<string>, factories: map<string, Factory>,
                                   env: Collaborators, k: nat)
    requires k < |command.botRequires| && command.botRequires[k] !in ctx.botPermissions
    requires forall j :: 0 <= j < k ==> command.botRequires[j] in ctx.botPermissions
    ensures ExecuteSpec(ctx, command, args, factories, env) == Threw(BotNotAllowed(command.botRequires[k]))
  {
  }

  /** With every bot permission held, the first user permission missing is the one raised. */
  lemma UserPermissionsCheckedSecond(ctx: Context, command: Command, args: seq<string>, factories: map<string, Factory>,
                                     env: Collaborators, k: nat)
    requires forall j :: 0 <= j < |command.botRequires| ==> command.botRequires[j] in ctx.botPermissions
    requires k < |command.userRequires| && command.userRequires[k] !in ctx.userPermissions
    requires forall j :: 0 <= j < k ==> command.userRequires[j] in ctx.userPermissions
    ensures ExecuteSpec(ctx, command, args, factories, env) == Threw(UserNotAllowed(command.userRequires[k]))
  {
  }

  /** The handler runs only when every permission is held, binding succeeded and the filters leave the call uncancelled. */
  lemma HandlerRunsOnlyPastTheGate(ctx: Context, command: Command, args: seq<string>, factories: map<string, Factory>,
                                   env: Collaborators)
    requires ExecuteSpec(ctx, command, args, factories, env).HandlerFailed?
      || ExecuteSpec(ctx, command, args, factories, env).Completed?
    ensures forall j :: 0 <= j < |command.botRequires| ==> command.botRequires[j] in ctx.botPermissions
    ensures forall j :: 0 <= j < |command.userRequires| ==> command.userRequires[j] in ctx.userPermissions
    ensures Bind(command, args, factories, env.foreign).Success?
    ensures RunFilters(command, command.filters, false, Bind(command, args, factories, env.foreign).value, env.filter)
      == Success(false)
  {
  }

  /**
   * After a successful handler the message is deleted exactly when the bot
   * holds MESSAGE_MANAGE, and what is sent is the rendering of its result; a
   * failed handler leads to neither.
   */
  lemma HandlerResultDispatch(ctx: Context, command: Command, args: seq<string>, factories: map<string, Factory>,
                              env: Collaborators)
    requires ExecuteSpec(ctx, command, args, factories, env).Completed?
    ensures Bind(command, args, factories, env.foreign).Success?
    ensures var r := ExecuteSpec(ctx, command, args, factories, env);
      var reply := env.handler(command.handler, Bind(command, args, factories, env.foreign).value);
      && reply.Returned?
      && r.deleted == (MessageManage in ctx.botPermissions)
      && (reply.reply.NullReply? <==> r.sent == NothingSent)
      && (reply.reply.EmbedReply? ==> r.sent == SentEmbed(reply.reply.embed))
      && (reply.reply.ObjectReply? ==> r.sent == SentText(reply.reply.text))
  {
  }

  /**
   * A filter that cancels does not stop the chain: the last filter runs on
   * whatever flag the ones before it left, cancelled or not. Only a throwing
   * filter ends the chain early.
   */
  lemma {:induction false} LastFilterAlwaysRuns(command: Command, filters: seq<FilterId>, last: FilterId, cancelled: bool,
                                                argsMap: ArgumentMap, filter: (FilterId, Command, bool, ArgumentMap) -> FilterOutcome)
    ensures RunFilters(command, filters + [last], cancelled, argsMap, filter)
      == match RunFilters(command, filters, cancelled, argsMap, filter)
         case Failure(e) => Failure(e)
         case Success(flag) =>
           match filter(last, command, flag, argsMap)
           case FilterThrew(cause) => Failure(FilterFailure(cause))
           case Proceed(next) => Success(next)
  {
    if filters == [] {
      assert filters + [last] == [last];
    } else {
      assert (filters + [last])[1..] == filters[1..] + [last];
      match filter(filters[0], command, cancelled, argsMap)
      case FilterThrew(_) =>
      case Proceed(next) =>
        LastFilterAlwaysRuns(command, filters[1..], last, next, argsMap, filter);
    }
  }

  /** With no tokens and at least one declared argument, binding always fails. */
  lemma NoTokensNeverBind(command: Command, factories: map<string, Factory>, foreign: ForeignConverter)
    requires |command.arguments| >= 1
    ensures Bind(command, [], factories, foreign)
      == Failure(if command.arguments[0].required then WrongArgumentNumber(command, 0) else ArgumentIndexOutOfBounds(0))
  {
  }

  /** Every declared argument's factory accepts the first token. */
  predicate FirstTokenConverts(command: Command, args: seq<string>, factories: map<string, Factory>, foreign: ForeignConverter)
  {
    |args| > 0 ==>
      forall i :: 0 <= i < |command.arguments| ==> Convert(command.arguments[i], args[0], factories, foreign).Success?
  }

  /**
   * When no conversion fails, binding from argument `i` on succeeds exactly
   * when there is a token (or nothing is left to bind), no argument left
   * beyond the supplied tokens is required, and there are at most one more
   * token than declared arguments.
   */
  lemma {:induction false} BindFromSucceedsIff(command: Command, args: seq<string>, factories: map<string, Factory>,
                                               foreign: ForeignConverter, i: nat, supplied: ArgumentMap)
    requires i <= |command.arguments|
    requires FirstTokenConverts(command, args, factories, foreign)
    ensures BindFrom(command, args, factories, foreign, i, supplied).Success?
      <==> && (i == |command.arguments| || |args| >= 1)
           && (forall j :: i <= j < |command.arguments| && j >= |args| ==> !command.arguments[j].required)
           && |args| <= |command.arguments| + 1
    decreases |command.arguments| - i
  {
    if i < |command.arguments| && |args| >= 1 && !(i > |args| - 1 && command.arguments[i].required) {
      var decl := command.arguments[i];
      var v := Convert(decl, args[0], factories, foreign).value;
      BindFromSucceedsIff(command, args, factories, foreign, i + 1, supplied[decl.key := v]);
    }
  }

  /**
   * Arity as the source checks it: with `n` tokens, `d` declared arguments and
   * no conversion failing, binding succeeds exactly when `n >= 1` (or `d == 0`),
   * every argument at an index `>= n` is optional, and `n <= d + 1`.
   */
  lemma BindSucceedsIff(command: Command, args: seq<string>, factories: map<string, Factory>, foreign: ForeignConverter)
    requires FirstTokenConverts(command, args, factories, foreign)
    ensures Bind(command, args, factories, foreign).Success?
      <==> && (|command.arguments| == 0 || |args| >= 1)
           && (forall j :: |args| <= j < |command.arguments| ==> !command.arguments[j].required)
           && |args| <= |command.arguments| + 1
  {
    BindFromSucceedsIff(command, args, factories, foreign, 0, map[]);
  }

  /**
   * A conversion error aborts binding at once: when argument `k` is the first
   * whose factory rejects the first token and no arity error comes before it,
   * binding fails with that factory's error.
   */
  lemma {:induction false} BindFromStopsAtConversionError(command: Command, args: seq<string>,
                                                          factories: map<string, Factory>, foreign: ForeignConverter,
                                                          i: nat, supplied: ArgumentMap, k: nat)
    requires i <= k < |command.arguments| && |args| >= 1
    requires forall j :: i <= j <= k ==> !(j > |args| - 1 && command.arguments[j].required)
    requires forall j :: i <= j < k ==> Convert(command.arguments[j], args[0], factories, foreign).Success?
    requires Convert(command.arguments[k], args[0], factories, foreign).Failure?
    ensures BindFrom(command, args, factories, foreign, i, supplied)
      == Failure(Convert(command.arguments[k], args[0], factories, foreign).error)
    decreases k - i
  {
    if i < k {
      var decl := command.arguments[i];
      var v := Convert(decl, args[0], factories, foreign).value;
      BindFromStopsAtConversionError(command, args, factories, foreign, i + 1, supplied[decl.key := v], k);
    }
  }

  /**
   * When no factory rejects the first token, the only way binding from
   * argument `i` on can fail with at least one token is the arity error,
   * carrying the command and the number of tokens.
   */
  lemma {:induction false} BindFromFailsOnlyOnArity(command: Command, args: seq<string>, factories: map<string, Factory>,
                                                    foreign: ForeignConverter, i: nat, supplied: ArgumentMap)
    requires i <= |command.arguments| && |args| >= 1
    requires FirstTokenConverts(command, args, factories, foreign)
    ensures BindFrom(command, args, factories, foreign, i, supplied).Failure?
      ==> BindFrom(command, args, factories, foreign, i, supplied).error == WrongArgumentNumber(command, |args|)
    decreases |command.arguments| - i
  {
    if i < |command.arguments| && !(i > |args| - 1 && command.arguments[i].required) {
      var decl := command.arguments[i];
      var v := Convert(decl, args[0], factories, foreign).value;
      BindFromFailsOnlyOnArity(command, args, factories, foreign, i + 1, supplied[decl.key := v]);
    }
  }

  /** With at least one token and every factory accepting it, binding fails only with `WrongArgumentNumber(command, n)`. */
  lemma BindFailsOnlyOnArity(command: Command, args: seq<string>, factories: map<string, Factory>, foreign: ForeignConverter)
    requires |args| >= 1
    requires FirstTokenConverts(command, args, factories, foreign)
    ensures Bind(command, args, factories, foreign).Failure?
      ==> Bind(command, args, factories, foreign).error == WrongArgumentNumber(command, |args|)
  {
    BindFromFailsOnlyOnArity(command, args, factories, foreign, 0, map[]);
  }

  /** The keys of the declared arguments from index `i` on. */
  function KeysFrom(command: Command, i: nat): set<string>
  {
    set j | i <= j < |command.arguments| :: command.arguments[j].key
  }

  /** The keys from `i` on are the key of argument `i` and the keys after it. */
  lemma KeysFromStep(command: Command, i: nat)
    requires i < |command.arguments|
    ensures KeysFrom(command, i) == {command.arguments[i].key} + KeysFrom(command, i + 1)
  {
  }

  /** Binding from argument `i` on adds exactly the keys of the arguments from `i` on to what was supplied. */
  lemma {:induction false} BindFromKeys(command: Command, args: seq<string>, factories: map<string, Factory>,
                                        foreign: ForeignConverter, i: nat, supplied: ArgumentMap, m: ArgumentMap)
    requires i <= |command.arguments|
    requires BindFrom(command, args, factories, foreign, i, supplied) == Success(m)
    ensures m.Keys == supplied.Keys + KeysFrom(command, i)
    decreases |command.arguments| - i
  {
    if i < |command.arguments| {
      var decl := command.arguments[i];
      var v := Convert(decl, args[0], factories, foreign).value;
      BindFromKeys(command, args, factories, foreign, i + 1, supplied[decl.key := v], m);
      KeysFromStep(command, i);
    } else {
      assert KeysFrom(command, i) == {};
    }
  }

  /** The ArgumentMap holds exactly the keys of the declared arguments, and no other. */
  lemma BindKeys(command: Command, args: seq<string>, factories: map<string, Factory>, foreign: ForeignConverter,
                 m: ArgumentMap)
    requires Bind(command, args, factories, foreign) == Success(m)
    ensures m.Keys == set j | 0 <= j < |command.arguments| :: command.arguments[j].key
  {
    BindFromKeys(command, args, factories, foreign, 0, map[], m);
  }

  /**
   * An arity error aborts binding at once: when argument `k` is required but
   * lies at or past the last token, and every argument before it passed its
   * required check and converted, binding fails with `WrongArgumentNumber`,
   * whatever the factories of the arguments after `k` would do.
   */
  lemma {:induction false} BindFromStopsAtArityError(command: Command, args: seq<string>,
                                                     factories: map<string, Factory>, foreign: ForeignConverter,
                                                     i: nat, supplied: ArgumentMap, k: nat)
    requires i <= k < |command.arguments| && (|args| >= 1 || i == k)
    requires k > |args| - 1 && command.arguments[k].required
    requires forall j :: i <= j < k ==> !(j > |args| - 1 && command.arguments[j].required)
    requires forall j :: i <= j < k ==> Convert(command.arguments[j], args[0], factories, foreign).Success?
    ensures BindFrom(command, args, factories, foreign, i, supplied) == Failure(WrongArgumentNumber(command, |args|))
    decreases k - i
  {
    if i < k {
      var decl := command.arguments[i];
      var v := Convert(decl, args[0], factories, foreign).value;
      BindFromStopsAtArityError(command, args, factories, foreign, i + 1, supplied[decl.key := v], k);
    }
  }

  /**
   * The checks of the binding loop apply in declaration order: a required
   * argument `k` with no token of its own, reached before any factory rejects
   * the first token, makes binding fail with `WrongArgumentNumber(command, n)`
   * even when a later factory would reject the token.
   */
  lemma BindStopsAtArityError(command: Command, args: seq<string>, factories: map<string, Factory>,
                              foreign: ForeignConverter, k: nat)
    requires k < |command.arguments| && (|args| >= 1 || k == 0)
    requires k >= |args| && command.arguments[k].required
    requires forall j :: 0 <= j < k ==> !(j >= |args| && command.arguments[j].required)
    requires forall j :: 0 <= j < k ==> Convert(command.arguments[j], args[0], factories, foreign).Success?
    ensures Bind(command, args, factories, foreign) == Failure(WrongArgumentNumber(command, |args|))
  {
    BindFromStopsAtArityError(command, args, factories, foreign, 0, map[], k);
  }

  /** The order shown on `x: string` then `y: number`, both required: one token `abc` is an arity error, not a type error. */
  lemma ArityBeforeLaterTypeError(foreign: ForeignConverter)
    ensures var c := Command("pair", [], [], [ArgumentDecl("x", true, "string"), ArgumentDecl("y", true, "number")],
                             [], [], false, [], "pair");
      && ParseNumber("abc").Failure?
      && Bind(c, ["abc"], BuiltIns(), foreign) == Failure(WrongArgumentNumber(c, 1))
  {
    var c := Command("pair", [], [], [ArgumentDecl("x", true, "string"), ArgumentDecl("y", true, "number")],
                     [], [], false, [], "pair");
    assert !IsDigit('a');
    BindStopsAtArityError(c, ["abc"], BuiltIns(), foreign, 1);
  }

  /** No two declared arguments share a key. */
  predicate DistinctKeys(command: Command)
  {
    forall i, j :: 0 <= i < j < |command.arguments| ==> command.arguments[i].key != command.arguments[j].key
  }

  /**
   * Every argument bound from index `i` on holds the conversion of the FIRST
   * token by its own factory, and the earlier bindings are kept.
   */
  lemma {:induction false} BindFromFeedsFirstToken(command: Command, args: seq<string>, factories: map<string, Factory>,
                                                   foreign: ForeignConverter, i: nat, supplied: ArgumentMap, m: ArgumentMap)
    requires i <= |command.arguments| && DistinctKeys(command)
    requires BindFrom(command, args, factories, foreign, i, supplied) == Success(m)
    ensures forall j :: i <= j < |command.arguments| ==>
      command.arguments[j].key in m && Success(m[command.arguments[j].key]) == Convert(command.arguments[j], args[0], factories, foreign)
    ensures forall key :: (key in supplied && (forall j :: i <= j < |command.arguments| ==> command.arguments[j].key != key)
      ==> key in m && m[key] == supplied[key])
    decreases |command.arguments| - i
  {
    if i < |command.arguments| {
      var decl := command.arguments[i];
      var v := Convert(decl, args[0], factories, foreign).value;
      BindFromFeedsFirstToken(command, args, factories, foreign, i + 1, supplied[decl.key := v], m);
    }
  }

  /** Every declared argument is bound to its factory's conversion of `args[0]`, not of `args[i]`. */
  lemma BindFeedsFirstToken(command: Command, args: seq<string>, factories: map<string, Factory>,
                            foreign: ForeignConverter, m: ArgumentMap)
    requires DistinctKeys(command)
    requires Bind(command, args, factories, foreign) == Success(m)
    ensures forall j :: 0 <= j < |command.arguments| ==>
      command.arguments[j].key in m && Success(m[command.arguments[j].key]) == Convert(command.arguments[j], args[0], factories, foreign)
  {
    BindFromFeedsFirstToken(command, args, factories, foreign, 0, map[], m);
  }

  /** No argument declared after argument `j` uses its key. */
  predicate LastWithKey(command: Command, j: nat)
    requires j < |command.arguments|
  {
    forall k :: j < k < |command.arguments| ==> command.arguments[k].key != command.arguments[j].key
  }

  /**
   * Without assuming distinct keys: a key declared again later is overwritten
   * by the later argument, so each argument that is the last with its key
   * holds its factory's conversion of the first token; keys bound before `i`
   * and not declared from `i` on are kept.
   */
  lemma {:induction false} BindFromLastDeclarationWins(command: Command, args: seq<string>,
                                                       factories: map<string, Factory>, foreign: ForeignConverter,
                                                       i: nat, supplied: ArgumentMap, m: ArgumentMap)
    requires i <= |command.arguments|
    requires BindFrom(command, args, factories, foreign, i, supplied) == Success(m)
    ensures forall j :: i <= j < |command.arguments| && LastWithKey(command, j) ==>
      command.arguments[j].key in m && Success(m[command.arguments[j].key]) == Convert(command.arguments[j], args[0], factories, foreign)
    ensures forall key :: key in supplied && key !in KeysFrom(command, i) ==> key in m && m[key] == supplied[key]
    decreases |command.arguments| - i
  {
    var decls := command.arguments;
    if i < |decls| {
      var decl := decls[i];
      assert |args| >= 1 && Convert(decl, args[0], factories, foreign).Success?;
      var v := Convert(decl, args[0], factories, foreign).value;
      var next := supplied[decl.key := v];
      assert BindFrom(command, args, factories, foreign, i + 1, next) == Success(m);
      BindFromLastDeclarationWins(command, args, factories, foreign, i + 1, next, m);
      KeysFromStep(command, i);
      forall j | i <= j < |decls| && LastWithKey(command, j)
        ensures decls[j].key in m && Success(m[decls[j].key]) == Convert(decls[j], args[0], factories, foreign)
      {
        if j == i {
          assert decl.key !in KeysFrom(command, i + 1);
          assert decl.key in next;
        }
      }
    }
  }

  /**
   * `supplied.put` keeps the last value put under a key: each key of the
   * ArgumentMap holds the conversion of the first token by the LAST argument
   * declared with that key.
   */
  lemma BindLastDeclarationWins(command: Command, args: seq<string>, factories: map<string, Factory>,
                                foreign: ForeignConverter, m: ArgumentMap)
    requires Bind(command, args, factories, foreign) == Success(m)
    ensures forall j :: 0 <= j < |command.arguments| && LastWithKey(command, j) ==>
      command.arguments[j].key in m && Success(m[command.arguments[j].key]) == Convert(command.arguments[j], args[0], factories, foreign)
  {
    BindFromLastDeclarationWins(command, args, factories, foreign, 0, map[], m);
  }

  /**
   * A command declaring two required `string` arguments `x` and `y`: one token
   * is too few; two tokens bind BOTH to the first token; three tokens are
   * still accepted; four are too many.
   */
  lemma TwoArgumentExamples(foreign: ForeignConverter)
    ensures var c := Command("pair", [], [], [ArgumentDecl("x", true, "string"), ArgumentDecl("y", true, "string")],
                             [], [], false, [], "pair");
      && Bind(c, ["a"], BuiltIns(), foreign) == Failure(WrongArgumentNumber(c, 1))
      && Bind(c, ["a", "b"], BuiltIns(), foreign) == Success(map["x" := StringValue("a"), "y" := StringValue("a")])
      && Bind(c, ["a", "b", "c"], BuiltIns(), foreign) == Success(map["x" := StringValue("a"), "y" := StringValue("a")])
      && Bind(c, ["a", "b", "c", "d"], BuiltIns(), foreign) == Failure(WrongArgumentNumber(c, 4))
  {
    var m: ArgumentMap := map["x" := StringValue("a")];
    assert m["y" := StringValue("a")] == map["x" := StringValue("a"), "y" := StringValue("a")];
  }
}
