/** Chat-format training records: a list of role/content messages. */
module Chat {
  import opened Json

  datatype Message = Message(role: string, content: string)

  function MessageJson(m: Message): Json {
    JObj([Field("role", JStr(m.role)), Field("content", JStr(m.content))])
  }

  /** `{"messages": [...]}` with the messages in order. */
  function MessagesJson(ms: seq<Message>): (r: Json)
    ensures r.JObj? && Keys(r.fields) == ["messages"]
  {
    JObj([Field("messages", JArr(seq(|ms|, i requires 0 <= i < |ms| => MessageJson(ms[i]))))])
  }

  /** A user request and the assistant's answer, in that order. */
  function UserAssistant(user: string, assistant: string): Json {
    MessagesJson([Message("user", user), Message("assistant", assistant)])
  }
}
