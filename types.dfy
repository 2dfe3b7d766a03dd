/** The records and enumerations every part of the client shares. */
module Types {

  datatype Option<+T> = None | Some(value: T)

  /** The outcome of a call that can throw: `Err` stands for any exception. */
  datatype Result<+T> = Ok(value: T) | Err

  /** The single interaction state the interface observes. */
  datatype NexaState = Idle | Listening | Thinking | Speaking

  datatype UserRole = Admin | User

  datatype Theme = DarkNeon | JarvisBlue | QuantumPurple | WhiteMinimal

  datatype Sender = FromUser | FromNexa

  datatype ChatMessage = ChatMessage(text: string, sender: Sender, timestamp: int)

  datatype UserProfile = UserProfile(
    name: string,
    mobile: string,
    role: UserRole,
    theme: Theme,
    chatHistory: seq<ChatMessage>,
    lastLogin: int)

  datatype ActionKind = OpenApp | Call | Alarm | WhatsApp | NoAction

  /** The arguments of a model function call, each value as the text that a
      template literal would render for it. A missing key is an absent property. */
  type Args = map<string, string>

  /** `data` is `None` when the payload carries no `data` property at all. */
  datatype ActionPayload = ActionPayload(action: ActionKind, data: Option<Args>)

  const NonePayload := ActionPayload(NoAction, None)
}
