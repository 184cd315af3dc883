/** The generation and embedding provider (server/src/services/gemini.js) at
    its call boundary. The provider itself is a black box: `embedFn` and
    `chatFn` say what it answers (None = the call rejects), and the service
    keeps a log of every call that reaches the network, so that callers can
    state how many provider calls they make. */
module Gemini {
  import opened Common

  type Vector = seq<real>

  datatype Role = User | Assistant | System

  /** `{ role, content }` as built by the chat service. */
  datatype Message = Message(role: Role, content: string)

  /** What `chat.sendMessage` is given: the chat history and the text sent. */
  datatype ChatCall = ChatCall(history: seq<Message>, sent: string)

  class GeminiService {
    const embedFn: string -> Option<Vector>
    const chatFn: ChatCall -> Option<string>
    var embedCalls: seq<string>
    var chatCalls: seq<ChatCall>

    constructor (embedFn: string -> Option<Vector>, chatFn: ChatCall -> Option<string>)
      ensures this.embedFn == embedFn && this.chatFn == chatFn
      ensures embedCalls == [] && chatCalls == []
    {
      this.embedFn := embedFn;
      this.chatFn := chatFn;
      embedCalls := [];
      chatCalls := [];
    }

    /** `generateEmbedding(text)`: one call to the embedding model. */
    method GenerateEmbedding(text: string) returns (r: Result<Vector>)
      modifies this`embedCalls
      ensures embedCalls == old(embedCalls) + [text]
      ensures embedFn(text).Some? ==> r == Ok(embedFn(text).value)
      ensures embedFn(text).None? ==> r == Err("Failed to generate embedding with Gemini")
    {
      embedCalls := embedCalls + [text];
      match embedFn(text)
      case Some(v) => r := Ok(v);
      case None => r := Err("Failed to generate embedding with Gemini");
    }

    /** `chat(messages)`: every message but the last becomes the chat history
        and the last one's content is what gets sent. With no message at all,
        reading the last one throws before any call is made. */
    method Chat(messages: seq<Message>) returns (r: Result<string>)
      modifies this`chatCalls
      ensures messages == [] ==> chatCalls == old(chatCalls) && r.Err?
      ensures messages != [] ==>
        var call := ChatCall(messages[..|messages| - 1], messages[|messages| - 1].content);
        && chatCalls == old(chatCalls) + [call]
        && (chatFn(call).Some? ==> r == Ok(chatFn(call).value))
        && (chatFn(call).None? ==> r.Err?)
      ensures r.Err? ==> r.message == "Failed to generate chat response with Gemini"
    {
      if messages == [] {
        r := Err("Failed to generate chat response with Gemini");
        return;
      }
      var call := ChatCall(messages[..|messages| - 1], messages[|messages| - 1].content);
      chatCalls := chatCalls + [call];
      match chatFn(call)
      case Some(text) => r := Ok(text);
      case None => r := Err("Failed to generate chat response with Gemini");
    }
  }
}
