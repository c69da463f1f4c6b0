/** The event models: who spoke, the event types, and how a transcript event
    is rendered as text. */
module Events {

  datatype Sender = Human | Bot

  /** The enum member name, which is what `to_string` prints. */
  function SenderName(s: Sender): (n: string)
    ensures |n| > 0
  {
    match s
    case Human => "HUMAN"
    case Bot => "BOT"
  }

  /** The enum member value, which `to_string` does not use. */
  function SenderValue(s: Sender): string
  {
    match s
    case Human => "human"
    case Bot => "bot"
  }

  datatype EventType = Transcript | PhoneCallConnected

  /** A transcript event's timestamp is a float; its `str()` rendering is
      Python's and enters as `timestampText`. */
  datatype Event =
    | TranscriptEvent(conversationId: string, text: string, sender: Sender, timestamp: real)
    | PhoneCallConnectedEvent(conversationId: string)
  {
    function Type(): EventType
    {
      match this
      case TranscriptEvent(_, _, _, _) => Transcript
      case PhoneCallConnectedEvent(_) => PhoneCallConnected
    }
  }

  /** `TranscriptEvent.to_string`: "SENDER: text", followed by
      " (timestamp)" when asked for. */
  function TranscriptToString(sender: Sender, text: string, timestampText: string, includeTimestamp: bool)
    : (r: string)
    ensures !includeTimestamp ==> |r| == |SenderName(sender)| + 2 + |text|
    ensures includeTimestamp ==> |r| == |SenderName(sender)| + 2 + |text| + 3 + |timestampText|
    ensures r[..|SenderName(sender)| + 2] == SenderName(sender) + ": "
  {
    if includeTimestamp then SenderName(sender) + ": " + text + " (" + timestampText + ")"
    else SenderName(sender) + ": " + text
  }

  /** The rendering with a timestamp extends the one without it, and the text
      sits right after the sender's member name. */
  lemma ToStringWithTimestampExtends(sender: Sender, text: string, timestampText: string)
    ensures var plain := TranscriptToString(sender, text, timestampText, false);
      var full := TranscriptToString(sender, text, timestampText, true);
      && plain <= full
      && full[|plain|..] == " (" + timestampText + ")"
      && plain[|SenderName(sender)| + 2..] == text
  {
  }

  /** The rendered sender is the member name, never the lower-case value. */
  lemma ToStringUsesMemberName(text: string, ts: string, b: bool)
    ensures TranscriptToString(Human, text, ts, b)[..5] == "HUMAN"
    ensures TranscriptToString(Bot, text, ts, b)[..3] == "BOT"
    ensures SenderName(Human) != SenderValue(Human) && SenderName(Bot) != SenderValue(Bot)
  {
  }
}
