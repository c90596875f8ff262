/** The two joi schemas: `participantSchema` for POST /participants and
    `messageSchema` for POST /messages. Validation failure is one error
    result (`None`); the joi error texts are not modelled. */
module Schemas {
  import opened ChatTypes

  /** A request header is absent or a string. */
  function HeaderField(header: Option<string>): Field
  {
    match header
    case None => Missing
    case Some(v) => Str(v)
  }

  /** joi.string(): the value, when present, must be a string, and joi
      refuses the empty string unless told otherwise. */
  function StringRule(f: Field): Option<string>
  {
    match f
    case Str(s) => if s != "" then Some(s) else None
    case _ => None
  }

  /** participantSchema: `name` is required, a string, at least three
      characters long. On acceptance the name itself is returned. */
  function ValidateParticipant(name: Field): (r: Option<string>)
    ensures r.Some? <==> name.Str? && |name.s| >= MinNameLength
    ensures r.Some? ==> r.value == name.s
  {
    var s := StringRule(name);
    if s.Some? && |s.value| >= MinNameLength then s else None
  }

  /** The `type` key accepts exactly these two values. */
  predicate AllowedKind(kind: string)
  {
    kind == PublicKind || kind == PrivateKind
  }

  /** messageSchema applied to the message POST /messages builds from the
      `user` header, the body's `to`, `text` and `type`, and the formatted
      time. Accepted exactly when the sender is a non-empty string, `to` and
      `text` are non-empty strings, `type` is one of the two allowed values
      and the optional `time`, which is always supplied, is non-empty; the
      accepted message carries those values unchanged. */
  function ValidateMessage(user: Option<string>, to: Field, text: Field, kind: Field, time: string): (r: Option<Message>)
    ensures r.Some? <==>
      && user.Some? && user.value != ""
      && to.Str? && to.s != ""
      && text.Str? && text.s != ""
      && kind.Str? && AllowedKind(kind.s)
      && time != ""
    ensures r.Some? ==> r.value == Message(user.value, to.s, text.s, kind.s, time)
    ensures r.Some? ==> r.value.kind != StatusKind
  {
    var from := StringRule(HeaderField(user));
    var to' := StringRule(to);
    var text' := StringRule(text);
    var kind' := StringRule(kind);
    var time' := StringRule(Str(time));
    if from.Some? && to'.Some? && text'.Some? && kind'.Some? && AllowedKind(kind'.value) && time'.Some? then
      Some(Message(from.value, to'.value, text'.value, kind'.value, time'.value))
    else
      None
  }
}
