# krobot command router, modelled in Dafny

This project models the command router of the krobot Discord bot framework, the class
`org.krobot.command.CommandManager`. The router covers four steps:

- **`handle`** takes a raw chat message. It trims it and strips the configured prefix. A
  leading mention of the bot, `<@!id> `, replaces that prefix. It then splits the rest
  with `splitWithQuotes` and looks up the command by label or alias, ignoring case. One
  level of sub-command is resolved by label. A sub-command is executed without the
  typing indicator. When the command itself runs, typing is sent first unless its
  handler is marked `@NoTyping`. An `Exception` thrown on the way goes to the runtime's
  exception handler; `execute` itself routes anything, `Error`s included, that the handler throws.
- **`execute`** checks the permissions the bot needs, then those the user needs. It binds
  the declared arguments through their argument factories and checks the token count.
  Next it runs the command's filters over a `CommandCall` whose `cancelled` flag they
  share. Finally it calls the handler. After a successful handler call it deletes the
  message when the bot holds `MESSAGE_MANAGE`, and sends the handler's result.
- **`splitWithQuotes`** tokenizes with the regular expression `[^\s"']+|"([^"]*)"|'([^']*)'`.
- **The argument-factory registry** is the static map from a type name to a converter:
  `string`, `number` (which is `Integer.parseInt`), and `int` and `integer` as aliases of
  `number`.

Modules, one per file:

- `Wrappers`: `Option` and `Result`.
- `JavaText`: the `java.lang.String` behaviour the router relies on:
  - `trim`;
  - `startsWith`;
  - `equalsIgnoreCase`;
  - the regex class `\s`.
- `Tokenizer`: the regex scan.
  - `Scan` lists the matches `Matcher.find` would return, as positions in the line.
  - `Tokenize` is the specification of `splitWithQuotes`.
  - The method `SplitWithQuotes` is the `while (matcher.find())` loop, proved equal to `Tokenize`.
- `Commands`: the data model.
  - Commands: label, aliases, sub-commands, declared arguments, required permissions, the no-typing flag, filters, handler.
  - The permission context.
  - Bound values, errors and handler results.
- `ArgumentFactories`: the converters and the registry.
  - `ParseNumber` is `Integer.parseInt`, whose `NumberFormatException` becomes `BadArgumentTypeException(arg, "number")`.
  - The class `Registry` holds the static map that `registerArgumentFactory` updates; `getArgumentFactory` is `Lookup` on that map.
- `Execution`: `execute`.
  - `ExecuteSpec` states what one call does.
  - The method `Execute` does it loop by loop, over a `CommandCall` object whose `cancelled` field the filters set.
- `CommandManager`: `handle`.
  - `StripPrefix`, `Resolve`, `DispatchSpec` and `HandleSpec` state what it does.
  - The methods `Dispatch` and `Handle` do it step by step, `Handle` calling the method `SplitWithQuotes` and `Dispatch` the method `Execute`.

The runtime's collaborators are inputs:

- the configured prefix, which is `None` when the filter runner returns `null`;
- the bot's user id;
- the permission sets of the message context;
- the filter bodies, handler bodies and the `float` and `user` converters, passed as functions in `Collaborators`.

The effects on Discord are values in the result instead of I/O: whether typing was sent,
whether the message was deleted, what was sent, and what reached the exception handler.

The model follows the code as written. Four of its behaviours are worth noting:

- An unterminated quote is skipped, not kept as a literal, because the regex has no
  alternative that matches a lone quote. So `say "hi` gives `["say", "hi"]`
  (`Tokenizer.UnterminatedQuoteDropped`).
- Every declared argument is converted from the first token `args[0]`, not from the
  token at its own position (`Execution.BindFeedsFirstToken`).
- The "too many tokens" check is `i < args.length - 1`. It therefore fails only when
  there are at least two more tokens than declared arguments. A command with two
  required arguments accepts three tokens (`Execution.TwoArgumentExamples`).
- A command whose first argument is optional, called with no tokens, reads `args[0]` out
  of bounds. The model returns `ArgumentIndexOutOfBounds(0)` there
  (`Execution.NoTokensNeverBind`).

## Model

| member | source | states |
|---|---|---|
| JavaText.Trim | src/main/java/org/krobot/command/CommandManager.java:46 | the trimmed message is a contiguous piece of the raw text; only characters at or below U+0020 are removed from either end, and it neither starts nor ends with one |
| JavaText.TrimIdempotent | src/main/java/org/krobot/command/CommandManager.java:46 | trimming an already trimmed message changes nothing |
| JavaText.TrimKeepsUntrimmable | src/main/java/org/krobot/command/CommandManager.java:46 | a message with no blank character at either end is left as it is by trim |
| JavaText.StartsWith | src/main/java/org/krobot/command/CommandManager.java:51 | `String.startsWith`: the string begins with the prefix, character for character (no ensures; used by the prefix lemmas) |
| JavaText.EqualsIgnoreCase | src/main/java/org/krobot/command/CommandManager.java:82-90 | `String.equalsIgnoreCase` with ASCII case folding: same length and equal letter by letter up to case (no ensures; see EqualsIgnoreCaseIsEquivalence) |
| JavaText.EqualsIgnoreCaseIsEquivalence | src/main/java/org/krobot/command/CommandManager.java:79-91 | the label comparison is reflexive, symmetric and transitive |
| JavaText.EqualsIgnoreCaseExamples | src/main/java/org/krobot/command/CommandManager.java:82-90 | `HELP`, `Help` and `help` all match `help`; `helq` and `hel` do not |
| Tokenizer.WordEnd | src/main/java/org/krobot/command/CommandManager.java:245 | the alternative `[^\s"']+` matches greedily: every character it covers is neither whitespace nor a quote, and the one after it is (or the line ends) |
| Tokenizer.IndexOf | src/main/java/org/krobot/command/CommandManager.java:245 | the closing delimiter of `"([^"]*)"` / `'([^']*)'` is the first later copy of the opening quote, or none |
| Tokenizer.Scan | src/main/java/org/krobot/command/CommandManager.java:245-262 | every match `find` returns lies within the line and starts at or after the search position |
| Tokenizer.ScanOrdered | src/main/java/org/krobot/command/CommandManager.java:248-262 | successive matches do not overlap and come strictly left to right |
| Tokenizer.TextsAt | src/main/java/org/krobot/command/CommandManager.java:250-261 | token `i` is the text of match `i`: group 1 or 2 (inside the quotes) for a quoted match, the whole match otherwise |
| Tokenizer.Tokenize | src/main/java/org/krobot/command/CommandManager.java:242-265 | the specification of `splitWithQuotes`: the text of each match of the regex scan, in order (no ensures; see SplitWithQuotes, TokenShapes, ScanOrdered, ScanDropsOnlySkippable) |
| Tokenizer.MatchWord | src/main/java/org/krobot/command/CommandManager.java:245 | the scanning loop stops exactly at the end of the unquoted run |
| Tokenizer.FindClosing | src/main/java/org/krobot/command/CommandManager.java:245 | the scanning loop finds the first later copy of the opening quote, or the end of the line |
| Tokenizer.SplitWithQuotes | src/main/java/org/krobot/command/CommandManager.java:242-265 | the `while (matcher.find())` loop returns exactly the tokens of the regex scan |
| Tokenizer.ScanShapes | src/main/java/org/krobot/command/CommandManager.java:245 | each match is a maximal run of non-blank, non-quote characters, or a quote, text without that quote, and the same quote again |
| Tokenizer.TextOfShape | src/main/java/org/krobot/command/CommandManager.java:250-261 | the token of a quoted match is the text strictly between the pair and holds no copy of its delimiter; the token of a run is non-empty and holds no whitespace or quote |
| Tokenizer.TokenShapes | src/main/java/org/krobot/command/CommandManager.java:245-261 | every token of a line has that shape at the position where it was found |
| Tokenizer.ScanDropsOnlySkippable | src/main/java/org/krobot/command/CommandManager.java:245-262 | every character outside all matches is whitespace or a quote with no later partner: nothing else is ever lost |
| Tokenizer.BlankHasNoTokens | src/main/java/org/krobot/command/CommandManager.java:245-264 | a line of whitespace only, the empty line included, gives no tokens |
| Tokenizer.DocumentedExample | src/main/java/org/krobot/command/CommandManager.java:232-236 | `I am a "discord bot"` gives `["I", "am", "a", "discord bot"]` |
| Tokenizer.UnterminatedQuoteDropped | src/main/java/org/krobot/command/CommandManager.java:245-262 | `say "hi` gives `["say", "hi"]`: the lone quote is skipped, not an error |
| Tokenizer.EmptyQuotedToken | src/main/java/org/krobot/command/CommandManager.java:250-253 | `""` gives one empty token |
| ArgumentFactories.ParseNumber | src/main/java/org/krobot/command/CommandManager.java:291-300 | `number` succeeds exactly on an optional sign followed by one or more decimal digits whose value fits in 32 bits, yields that integer, and otherwise fails with `BadArgumentType(arg, "number")`; the value is the digits' value, negated after a `-` |
| ArgumentFactories.ParseNumberFormatInt | src/main/java/org/krobot/command/CommandManager.java:294 | every 32-bit integer written in decimal parses back to itself |
| ArgumentFactories.ParseNumberExamples | src/main/java/org/krobot/command/CommandManager.java:291-300 | `42`, `+7` and `-007` parse; the empty string, a lone `-`, `4a` and ` 4` are rejected with the `number` error |
| ArgumentFactories.ParseNumberBounds | src/main/java/org/krobot/command/CommandManager.java:294 | -2147483648 and 2147483647 parse; one beyond either bound is rejected |
| ArgumentFactories.Lookup | src/main/java/org/krobot/command/CommandManager.java:282-285 | a name gives its registered factory when present and nothing otherwise |
| ArgumentFactories.BuiltInFactories | src/main/java/org/krobot/command/CommandManager.java:287-327 | after the static initializer `int` and `integer` are the `number` factory and parse alike, `string` is the identity, and unregistered names are absent |
| ArgumentFactories.Registry.constructor | src/main/java/org/krobot/command/CommandManager.java:287-327 | the initializer's registrations, aliases taken from the registered `number`, leave exactly the built-in map |
| ArgumentFactories.Registry.Register | src/main/java/org/krobot/command/CommandManager.java:277-280 | registering overwrites the name's factory and leaves every other name as it was |
| Execution.Convert | src/main/java/org/krobot/command/CommandManager.java:174 | `arg.getFactory().process(args[0])`: the named factory applied to the token, or MissingFactory when none is registered (no ensures; see BindFeedsFirstToken) |
| Execution.BindFrom | src/main/java/org/krobot/command/CommandManager.java:165-180 | the binding loop from argument `i` on followed by the too-many check (no ensures; see BindFromSucceedsIff, BindFromFailsOnlyOnArity, BindFromKeys) |
| Execution.Bind | src/main/java/org/krobot/command/CommandManager.java:161-182 | the ArgumentMap built from the tokens, or the exception thrown while building it (no ensures; see BindSucceedsIff, BindFailsOnlyOnArity, BindKeys, BindFeedsFirstToken) |
| Execution.RunFilters | src/main/java/org/krobot/command/CommandManager.java:184-188 | the filter loop over the shared cancelled flag: the final flag, or the first filter exception (no ensures; see LastFilterAlwaysRuns) |
| Execution.Render | src/main/java/org/krobot/command/CommandManager.java:209-223 | what `context.send` is given: nothing for null, an embed as an embed, anything else as its text (no ensures; see HandlerResultDispatch) |
| Execution.ExecuteSpec | src/main/java/org/krobot/command/CommandManager.java:135-225 | one call of `execute`: bot permissions, user permissions, binding, filters, cancellation, handler, deletion and send, in that order (no ensures; see Execute and the lemmas below) |
| Execution.FirstMissing | src/main/java/org/krobot/command/CommandManager.java:139-159 | the permission raised is the first one not held, in declaration order; all before it are held |
| Execution.CommandCall.constructor | src/main/java/org/krobot/command/CommandManager.java:184 | a new call is for the given command and not cancelled |
| Execution.Execute | src/main/java/org/krobot/command/CommandManager.java:135-225 | the permission loops, the binding loop, the arity check, the filter loop over the shared flag and the handler call end exactly as the specification of one `execute` says |
| Execution.BotPermissionsCheckedFirst | src/main/java/org/krobot/command/CommandManager.java:139-148 | the first missing bot permission is raised whatever the user holds and whatever the arguments are, so nothing is bound, filtered, run, deleted or sent |
| Execution.UserPermissionsCheckedSecond | src/main/java/org/krobot/command/CommandManager.java:150-159 | with every bot permission held, the first missing user permission is raised before anything else happens |
| Execution.HandlerRunsOnlyPastTheGate | src/main/java/org/krobot/command/CommandManager.java:139-196 | the handler is reached only when all permissions are held, binding succeeded and the filter chain ended uncancelled |
| Execution.HandlerResultDispatch | src/main/java/org/krobot/command/CommandManager.java:204-223 | after a successful handler the message is deleted exactly when the bot holds MESSAGE_MANAGE; null sends nothing, an embed is sent as an embed, anything else as text |
| Execution.LastFilterAlwaysRuns | src/main/java/org/krobot/command/CommandManager.java:184-188 | a cancelling filter does not stop the chain: the last filter runs on whatever flag the earlier ones left, and only a throwing filter ends the chain |
| Execution.NoTokensNeverBind | src/main/java/org/krobot/command/CommandManager.java:165-175 | with no tokens and at least one declared argument binding fails: a required first argument raises the arity error, an optional one the out-of-bounds error |
| Execution.BindFromSucceedsIff | src/main/java/org/krobot/command/CommandManager.java:163-180 | when no conversion fails, binding from argument `i` on succeeds exactly when there is a token or nothing left to bind, no remaining argument past the tokens is required, and n <= d + 1 |
| Execution.BindSucceedsIff | src/main/java/org/krobot/command/CommandManager.java:163-180 | with n tokens and d arguments, binding succeeds exactly when (d = 0 or n >= 1), every argument at index >= n is optional, and n <= d + 1 |
| Execution.BindFromFailsOnlyOnArity | src/main/java/org/krobot/command/CommandManager.java:169-179 | with at least one token and no factory rejecting it, binding from argument `i` on fails only with `WrongArgumentNumber(command, n)` |
| Execution.BindFailsOnlyOnArity | src/main/java/org/krobot/command/CommandManager.java:169-179 | with n >= 1 tokens and no factory rejecting the first, a failed binding is always `WrongArgumentNumber(command, n)` |
| Execution.BindFromKeys | src/main/java/org/krobot/command/CommandManager.java:165-175 | binding from argument `i` on adds exactly the keys of the arguments from `i` on to those already bound |
| Execution.BindKeys | src/main/java/org/krobot/command/CommandManager.java:161-182 | a successful binding holds exactly the keys of the declared arguments, and no other |
| Execution.BindFromStopsAtConversionError | src/main/java/org/krobot/command/CommandManager.java:165-175 | the first factory to reject the token aborts binding with its own error |
| Execution.BindFromStopsAtArityError | src/main/java/org/krobot/command/CommandManager.java:165-172 | a required argument at or past the last token, reached before any factory rejects `args[0]`, aborts binding with `WrongArgumentNumber(command, args.length)` |
| Execution.BindStopsAtArityError | src/main/java/org/krobot/command/CommandManager.java:165-172 | the required check of argument `k` comes before the factories of later arguments: binding fails with the arity error even when a later factory would reject the token |
| Execution.ArityBeforeLaterTypeError | src/main/java/org/krobot/command/CommandManager.java:165-175 | with `x: string` then `y: number`, both required, the single token `abc` is an arity error and not a type error |
| Execution.BindFromFeedsFirstToken | src/main/java/org/krobot/command/CommandManager.java:174 | every argument bound from `i` on holds its factory's conversion of the first token, and earlier bindings are kept |
| Execution.BindFeedsFirstToken | src/main/java/org/krobot/command/CommandManager.java:174 | when no two arguments share a key, every declared argument is bound to its factory's conversion of `args[0]` (for shared keys see BindLastDeclarationWins) |
| Execution.BindFromLastDeclarationWins | src/main/java/org/krobot/command/CommandManager.java:165-175 | without assuming distinct keys: binding from argument `i` on leaves each key declared last from `i` on with its factory's conversion of the first token, and keeps earlier keys not declared again |
| Execution.BindLastDeclarationWins | src/main/java/org/krobot/command/CommandManager.java:174 | `supplied.put` keeps the last value: each argument that is the last declared with its key holds its factory's conversion of `args[0]` in the ArgumentMap |
| Execution.TwoArgumentExamples | src/main/java/org/krobot/command/CommandManager.java:163-180 | for two required string arguments: 1 token is an arity error, 2 and 3 tokens both bind x and y to the first token, 4 tokens is an arity error |
| CommandManager.Mention | src/main/java/org/krobot/command/CommandManager.java:49 | the mention prefix ends in a space |
| CommandManager.StripPrefix | src/main/java/org/krobot/command/CommandManager.java:46-68 | the prefix gate: None where `handle` returns silently, otherwise the text after the mention or the configured prefix (no ensures; see ConfiguredPrefixGate, MentionReplacesPrefix, UnprefixedMessageIgnored) |
| CommandManager.Resolve | src/main/java/org/krobot/command/CommandManager.java:77-123 | the lookups on the token list: the first command named by token 0, then a sub-command by label, and whether typing is sent (no ensures; see ResolveFindsFirstCommand, ResolveSubCommand, ResolveIgnoresCase) |
| CommandManager.Deliver | src/main/java/org/krobot/command/CommandManager.java:107-132 | the catch blocks of `handle`: an exception from `execute` is routed with the command found and its arguments; a handler failure was routed by `execute` with its own command (no ensures; see ErrorsRoutedOnce) |
| CommandManager.DispatchSpec | src/main/java/org/krobot/command/CommandManager.java:70-132 | what `handle` does with the token list: nothing when it resolves to no command, otherwise the delivered end of `execute` (no ensures; see Dispatch, ChatIsSilent) |
| CommandManager.HandleSpec | src/main/java/org/krobot/command/CommandManager.java:44-133 | one call of `handle`: trim, the prefix gate, the split and the dispatch (no ensures; see Handle, UnprefixedMessageIgnored, BanExample) |
| CommandManager.FindCommand | src/main/java/org/krobot/command/CommandManager.java:79-91 | the command found is the first in registry order whose label or some alias equals the token ignoring case; when none is found, no command matches |
| CommandManager.FindSubCommand | src/main/java/org/krobot/command/CommandManager.java:103 | the sub-command found is the first whose label (never an alias) equals the token ignoring case; when none is found, no label matches |
| CommandManager.Dispatch | src/main/java/org/krobot/command/CommandManager.java:70-132 | the lookups, the sub-command descent, `execute` and the catch blocks end exactly as the dispatch specification says |
| CommandManager.Handle | src/main/java/org/krobot/command/CommandManager.java:44-133 | one call of `handle` ends exactly as its specification says |
| CommandManager.TrimmedIsNeverMention | src/main/java/org/krobot/command/CommandManager.java:46-51 | a trimmed message never equals the mention, which ends in a space |
| CommandManager.ConfiguredPrefixGate | src/main/java/org/krobot/command/CommandManager.java:56-68 | without a leading mention: no prefix keeps the whole message; with prefix p the message is dropped exactly when it lacks p or is p, and otherwise p is cut off |
| CommandManager.UnprefixedMessageIgnored | src/main/java/org/krobot/command/CommandManager.java:56-59 | a message without the prefix, or equal to it, dispatches nothing and routes nothing |
| CommandManager.MentionReplacesPrefix | src/main/java/org/krobot/command/CommandManager.java:49-64 | a leading mention is what gets stripped, and the configured prefix then makes no difference |
| CommandManager.NamesIgnoresCase | src/main/java/org/krobot/command/CommandManager.java:79-91 | whether a command is named by a token depends on the token only up to case |
| CommandManager.FindCommandIgnoresCase | src/main/java/org/krobot/command/CommandManager.java:79-91 | tokens equal up to case find the same command |
| CommandManager.ResolveIgnoresCase | src/main/java/org/krobot/command/CommandManager.java:77-96 | `HELP x` and `help x` resolve to the same route |
| CommandManager.ResolveFindsFirstCommand | src/main/java/org/krobot/command/CommandManager.java:77-99 | a token list resolves exactly when its first token names some command, and then to the first such command with the remaining tokens as arguments |
| CommandManager.ResolveSubCommand | src/main/java/org/krobot/command/CommandManager.java:99-123 | a second token that is a sub-command's label runs the first such sub-command on the tokens after it without typing; otherwise the parent runs on all arguments, typing unless marked NoTyping |
| CommandManager.ChatIsSilent | src/main/java/org/krobot/command/CommandManager.java:56-96 | anything dispatched carried the prefix and named a registered command |
| CommandManager.ErrorsRoutedOnce | src/main/java/org/krobot/command/CommandManager.java:107-132 | an exception from `execute` is routed once with the command found and all its arguments; a handler failure is routed once with the command executed and its own arguments; only a completed handler deletes or sends |
| CommandManager.BanTokens | src/main/java/org/krobot/command/CommandManager.java:242-265 | `ban @alice` splits into `ban` and `@alice` |
| CommandManager.BanPrefix | src/main/java/org/krobot/command/CommandManager.java:46-68 | `!ban @alice` under the prefix `!` leaves `ban @alice` for any bot id |
| CommandManager.BanRoute | src/main/java/org/krobot/command/CommandManager.java:77-123 | `ban @alice` reaches `ban` itself, with `@alice` as its argument and typing on |
| CommandManager.BanBinds | src/main/java/org/krobot/command/CommandManager.java:161-180 | `@alice` binds `user` through the user factory |
| CommandManager.BanExample | src/main/java/org/krobot/command/CommandManager.java:44-133 | `!ban @alice` runs the handler with the bound user, types first, deletes nothing without MESSAGE_MANAGE and sends the handler's text |

## Left out

- The `float` factory (CommandManager.java:302-311) is floating-point parsing. It is the opaque converter `Foreign("float")`, given as a parameter.
- The `user` factory (CommandManager.java:313-322) depends on `UserUtils.resolve`, which is not part of this model. It is the opaque converter `Foreign("user")`.
- Discord I/O is left out: `sendTyping`, `context.send` and `delete().reason(...).queue()`. The model records whether typing was sent, whether the message was deleted and what was sent. It does not model a failure inside those calls.
- Runtime lookups are parameters: `getFilterRunner().getPrefix(context)` and `jda().getSelfUser().getId()`. The exception handler's `handle` calls are the `Routed` outcome. An exception thrown by the exception handler itself is not modelled.
- Reflective annotation lookup (`@NoTyping`, `@BotRequires`, `@UserRequires`) is replaced by fields of the command. The filter and handler bodies are not part of this model. They are functions in `Collaborators`.
- Only `Exception`s are modelled as errors. A `java.lang.Error` thrown by a filter (CommandManager.java:187) or an argument factory (CommandManager.java:174) escapes `handle` unrouted, since `handle` catches `Exception` only (CommandManager.java:111, 129). The handler's `Throwable` is routed inside `execute` (CommandManager.java:198). The model routes every failure it knows, so it does not capture this asymmetry.
- Null `getAliases()` is an empty alias list. A null sub-command array, which would throw in `handle`, is not modelled.
- Each argument holds the name of its factory, looked up in a snapshot of the registry when binding. A name with no factory yields `MissingFactory` where the source would throw a `NullPointerException`.
- The command list and the registry are passed by value into `handle`. Registration of commands and filters, the singleton injection, class-loading order and concurrent dispatch are not modelled.
- JavaText.EqualsIgnoreCase: folds ASCII letters only, because Java's Unicode case folding is not modelled. Labels with other letters may compare unequal here where Java finds them equal.
- ArgumentFactories.ParseNumber: accepts ASCII digits only. `Integer.parseInt` also accepts other Unicode decimal digits through `Character.digit`.
- The handler's returned object is reduced to null, an embed, or the text of its `toString`. `EmbedBuilder` and `MessageEmbed` are the same reply kind here.
