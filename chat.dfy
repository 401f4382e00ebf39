/** The chat-completion shapes the detail view decodes stored bodies into
    (the Request, Message, Response, Choice and Usage structs of show.go),
    and the library decoders the gateway calls but does not implement. */
module Chat {
  import opened GoText
  import opened Decimal

  datatype Message = Message(role: GoString, content: GoString)

  /** Temperature is a float64 in the source; it is carried, never computed with. */
  datatype ChatRequest = ChatRequest(model: GoString, messages: seq<Message>, temperature: real)

  datatype Choice = Choice(index: Int64, message: Message, finishReason: GoString)

  datatype Usage = Usage(promptTokens: Int64, completionTokens: Int64, totalTokens: Int64)

  datatype ChatResponse = ChatResponse(
    id: GoString, objectKind: GoString, created: Int64, model: GoString,
    choices: seq<Choice>, usage: Usage)

  /** Decoders from Go's standard library, each a partial function (None is
      its error): gzip.NewReader followed by io.ReadAll, and json.Unmarshal
      into the two structs. */
  datatype Codecs = Codecs(
    gunzip: GoString -> Option<GoString>,
    parseRequest: GoString -> Option<ChatRequest>,
    parseResponse: GoString -> Option<ChatResponse>)
}
