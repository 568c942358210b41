/**
 * The values the command router works on: command definitions, the message
 * context as far as permissions go, bound argument values, the errors handed
 * to the exception handler, and what a handler may return.
 */
module Commands {

  /** A JDA permission, by its enum name. */
  type Permission = string

  const MessageManage: Permission := "MESSAGE_MANAGE"

  type FilterId = string
  type HandlerId = string

  /** One declared argument: the key it is bound under, whether it is required, and its factory's name. */
  datatype ArgumentDecl = ArgumentDecl(key: string, required: bool, factory: string)

  /**
   * A registered command; `name` is its label (getLabel). The handler's class annotations @BotRequires,
   * @UserRequires and @NoTyping are the fields botRequires, userRequires and
   * noTyping; a command without aliases has an empty alias list.
   */
  datatype Command = Command(
    name: string,
    aliases: seq<string>,
    subCommands: seq<Command>,
    arguments: seq<ArgumentDecl>,
    botRequires: seq<Permission>,
    userRequires: seq<Permission>,
    noTyping: bool,
    filters: seq<FilterId>,
    handler: HandlerId)

  /** What the message context answers about permissions: those the bot holds and those the author holds. */
  datatype Context = Context(botPermissions: set<Permission>, userPermissions: set<Permission>)

  /** A converted argument: from the `string` factory, from `number`, or from a factory outside this model. */
  datatype Value = StringValue(s: string) | IntValue(n: int) | ForeignValue(factory: string, repr: string)

  /** The ArgumentMap handed to filters and the handler. */
  type ArgumentMap = map<string, Value>

  /** The exceptions that reach the exception handler. */
  datatype Error =
    | BotNotAllowed(permission: Permission)
    | UserNotAllowed(permission: Permission)
    | WrongArgumentNumber(command: Command, supplied: nat)
    | BadArgumentType(argument: string, typeName: string)
    | ArgumentIndexOutOfBounds(index: nat)
    | MissingFactory(name: string)
    | FilterFailure(cause: string)
    | HandlerFailure(cause: string)

  /** A handler's return value: null, an EmbedBuilder or MessageEmbed, or any other object (by its toString). */
  datatype Reply = NullReply | EmbedReply(embed: string) | ObjectReply(text: string)

  /** What `context.send` was given, if anything. */
  datatype Sent = NothingSent | SentEmbed(embed: string) | SentText(text: string)
}
