/**
 * The AI writing assistant, seen from the blog: a call either has no API key,
 * fails upstream, or returns a (possibly empty) text. Prompts and the model
 * behind them are outside the model; the reply is a parameter.
 */
module TextAssist {
  import opened Wrappers
  import opened Types

  /** What one call to the language model yields. */
  datatype AiReply = MissingKey | ServiceError(message: string) | Reply(text: string)

  const MissingKeyMessage: string := "API Key eksik."

  /** The error a failed call throws. */
  function ReplyFault(reply: AiReply): Fault
    requires !reply.Reply?
  {
    match reply
    case MissingKey => Fault("", MissingKeyMessage)
    case ServiceError(m) => Fault("", m)
  }

  /** `generateSummary`: the reply's text, empty when the model says nothing; throws when there is no key or the call fails. */
  function GenerateSummary(reply: AiReply): (r: Result<string, Fault>)
    ensures r.Success? <==> reply.Reply?
    ensures reply.Reply? ==> r == Success(reply.text)
    ensures reply.MissingKey? ==> r == Failure(Fault("", MissingKeyMessage))
    ensures reply.ServiceError? ==> r == Failure(Fault("", reply.message))
  {
    if reply.Reply? then Success(reply.text) else Failure(ReplyFault(reply))
  }

  /** `fixGrammar`: the reply's text, or the content itself when the reply is empty; throws like `generateSummary`. */
  function FixGrammar(content: string, reply: AiReply): (r: Result<string, Fault>)
    ensures r.Success? <==> reply.Reply?
    ensures r.Success? && content != [] ==> r.value != []
    ensures reply.Reply? && reply.text != [] ==> r == Success(reply.text)
    ensures reply == Reply([]) ==> r == Success(content)
  {
    if reply.Reply? then Success(if reply.text == [] then content else reply.text) else Failure(ReplyFault(reply))
  }

  /** An empty reply is a successful, empty summary: the caller gets no error to fall back on. */
  lemma EmptySummaryIsNoError()
    ensures GenerateSummary(Reply([])) == Success([])
  {
  }
}
