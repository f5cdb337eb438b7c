/**
 * How the two handlers turn the proxy's response into the text of the bot's
 * chat bubble. The proxy answers either `{ reply }` or
 * `{ choices: [{ message: { content } }] }`; an empty string counts as
 * absent, as it does in a JavaScript condition.
 */
module Replies {
  import opened Wrappers

  /**
   * `{ content }` inside a choice; a missing or falsy content is `None`. A
   * truthy content that is not a string is not modelled.
   */
  datatype ChoiceMessage = ChoiceMessage(content: Option<string>)

  /** One entry of `choices`; a missing `message` is `None`. */
  datatype Choice = Choice(message: Option<ChoiceMessage>)

  /** The two fields of a decoded response that the handlers read. */
  datatype Fields = Fields(reply: Option<string>, choices: Option<seq<Choice>>)

  /**
   * The decoded response body: JSON `null`, or any other value. A number,
   * string or boolean behaves like an object that has neither field.
   */
  datatype Body = Null | Value(fields: Fields)

  /** What the handler's `try` block does with a body: show a text, or throw. */
  datatype Outcome = Show(text: string) | Throw

  /** How a request ended: the fetch or the JSON decoding failed, or a body arrived. */
  datatype Delivery = Failed | Delivered(body: Body)

  const RoutineWarning: string := "⚠️ Something went wrong with the response format."
  const RoutineFailure: string := "❌ Could not connect to the AI service."
  const ChatWarning: string := "⚠️ AI did not return a valid message."
  const ChatFailure: string := "❌ Error processing your message."

  /** A string field that a JavaScript condition treats as true: present and non-empty. */
  predicate Truthy(s: Option<string>) {
    s.Some? && s.value != ""
  }

  /** The optional chain `choices?.[0]?.message?.content`. */
  function FirstContent(choices: Option<seq<Choice>>): (r: Option<string>)
    ensures r.Some? ==>
              choices.Some? && |choices.value| > 0 && choices.value[0].message == Some(ChoiceMessage(r))
    ensures choices.Some? && |choices.value| > 0 && choices.value[0].message.Some? ==>
              r == choices.value[0].message.value.content
  {
    match choices
    case None => None
    case Some(cs) =>
      if cs == [] then None
      else
        match cs[0].message
        case None => None
        case Some(m) => m.content
  }

  /**
   * The `if / else if / else` of a handler: a truthy `reply` first, then a
   * truthy first choice content, then the handler's warning. On a `null`
   * body the `data.choices` access throws.
   */
  function Resolve(body: Body, warning: string): (r: Outcome)
    ensures r == Throw <==> body.Null?
    ensures r.Show? ==>
              || r.text == warning
              || (r.text != "" && body.fields.reply == Some(r.text))
              || (r.text != "" && FirstContent(body.fields.choices) == Some(r.text))
  {
    match body
    case Null => Throw
    case Value(fields) =>
      if Truthy(fields.reply) then Show(fields.reply.value)
      else if Truthy(FirstContent(fields.choices)) then Show(FirstContent(fields.choices).value)
      else Show(warning)
  }

  /** A truthy `reply` is shown whatever `choices` holds. */
  lemma ReplyTakesPrecedence(reply: string, choices: Option<seq<Choice>>, warning: string)
    requires reply != ""
    ensures Resolve(Value(Fields(Some(reply), choices)), warning) == Show(reply)
  {
  }

  /** Without a truthy `reply`, a truthy first choice content is shown. */
  lemma ChoiceContentIsFallback(reply: Option<string>, choices: Option<seq<Choice>>, warning: string)
    requires !Truthy(reply) && Truthy(FirstContent(choices))
    ensures Resolve(Value(Fields(reply, choices)), warning) == Show(choices.value[0].message.value.content.value)
  {
  }

  /** Neither field usable: the handler's warning is shown, and nothing is thrown. */
  lemma WarningWhenNeither(fields: Fields, warning: string)
    requires !Truthy(fields.reply) && !Truthy(FirstContent(fields.choices))
    ensures Resolve(Value(fields), warning) == Show(warning)
  {
  }

  /** An empty `reply` is treated exactly like a missing one. */
  lemma EmptyReplyIsAbsent(choices: Option<seq<Choice>>, warning: string)
    ensures Resolve(Value(Fields(Some(""), choices)), warning) == Resolve(Value(Fields(None, choices)), warning)
  {
  }

  /** The text a handler finally shows: the resolved text, or its failure text from the `catch` block. */
  function HandlerText(delivery: Delivery, warning: string, failure: string): (text: string)
    ensures delivery.Failed? || delivery.body.Null? ==> text == failure
    ensures delivery.Delivered? && delivery.body.Value? ==> text == Resolve(delivery.body, warning).text
    ensures warning != "" && failure != "" ==> text != ""
  {
    match delivery
    case Failed => failure
    case Delivered(body) =>
      match Resolve(body, warning)
      case Show(t) => t
      case Throw => failure
  }

  /** The bubble shown after the routine request completes (script.js:143-153). */
  function RoutineReplyText(delivery: Delivery): (text: string)
    ensures text != ""
    ensures delivery.Failed? ==> text == RoutineFailure
  {
    HandlerText(delivery, RoutineWarning, RoutineFailure)
  }

  /** The bubble shown after a follow-up chat request completes (script.js:192-202). */
  function ChatReplyText(delivery: Delivery): (text: string)
    ensures text != ""
    ensures delivery.Failed? ==> text == ChatFailure
  {
    HandlerText(delivery, ChatWarning, ChatFailure)
  }

  /** `{choices:[{message:{content:"Use X then Y."}}]}` shows "Use X then Y.". */
  lemma ChoicesShapeExample()
    ensures RoutineReplyText(Delivered(Value(Fields(None,
      Some([Choice(Some(ChoiceMessage(Some("Use X then Y."))))]))))) == "Use X then Y."
  {
  }

  /** `{}` shows the fixed warning and throws nothing. */
  lemma EmptyObjectExample()
    ensures RoutineReplyText(Delivered(Value(Fields(None, None)))) == RoutineWarning
    ensures ChatReplyText(Delivered(Value(Fields(None, None)))) == ChatWarning
  {
  }
}
