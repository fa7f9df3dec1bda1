/** The message a chat parse produces (common/chat.h). */
module ChatMessage {
  datatype ToolCall = ToolCall(name: string, arguments: string, id: string)

  datatype Message = Message(reasoning: string, content: string, calls: seq<ToolCall>)

  const EMPTY_MESSAGE := Message("", "", [])
}
