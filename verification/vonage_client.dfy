/** `VonageClient.create_call_ncco`: the call-control object handed to Vonage
    when a call is placed. `VONAGE_CONTENT_TYPE` is defined in a constants
    file outside this model and enters as `contentType`. */
module VonageClient {
  import opened Common

  datatype Endpoint = Endpoint(kind: string, uri: string, contentType: string, headers: map<string, string>)

  datatype NccoAction =
    | RecordAction(eventUrl: seq<string>)
    | ConnectAction(endpoint: seq<Endpoint>)

  function RecordingsUrl(baseUrl: string, conversationId: string): string
  {
    "https://" + baseUrl + "/recordings/" + conversationId
  }

  function ConnectCallUri(baseUrl: string, conversationId: string): string
  {
    "wss://" + baseUrl + "/connect_call/" + conversationId
  }

  /** An optional `record` action, then always a `connect` action to the
      server's websocket for this conversation. `isOutbound` is accepted and
      not used. */
  function CreateCallNcco(baseUrl: string, conversationId: string, record: bool, isOutbound: bool,
                          contentType: string): (r: seq<NccoAction>)
    ensures |r| == (if record then 2 else 1)
    ensures record ==> r[0] == RecordAction([RecordingsUrl(baseUrl, conversationId)])
    ensures r[|r| - 1] == ConnectAction([Endpoint("websocket", ConnectCallUri(baseUrl, conversationId),
                                                  contentType, map[])])
  {
    var recording := if record then [RecordAction([RecordingsUrl(baseUrl, conversationId)])] else [];
    recording + [ConnectAction([Endpoint("websocket", ConnectCallUri(baseUrl, conversationId), contentType, map[])])]
  }

  /** What follows `prefix` in `s`, if `s` starts with it. */
  function StripPrefix(prefix: string, s: string): (r: Option<string>)
    ensures r.Some? <==> prefix <= s
    ensures r.Some? ==> prefix + r.value == s
  {
    if prefix <= s then Some(s[|prefix|..]) else None
  }

  /** The conversation a Vonage websocket will connect to, read back from the
      NCCO's final `connect` action. */
  function ConnectedConversation(baseUrl: string, ncco: seq<NccoAction>): Option<string>
  {
    if |ncco| == 0 then None
    else match ncco[|ncco| - 1]
      case ConnectAction(eps) =>
        if |eps| == 1 then StripPrefix("wss://" + baseUrl + "/connect_call/", eps[0].uri) else None
      case RecordAction(_) => None
  }

  /** The NCCO names the conversation it was built for, with or without a
      recording, and `isOutbound` makes no difference to it. */
  lemma NccoRoundTrip(baseUrl: string, conversationId: string, record: bool, isOutbound: bool, contentType: string)
    ensures ConnectedConversation(baseUrl, CreateCallNcco(baseUrl, conversationId, record, isOutbound, contentType))
         == Some(conversationId)
    ensures CreateCallNcco(baseUrl, conversationId, record, isOutbound, contentType)
         == CreateCallNcco(baseUrl, conversationId, record, !isOutbound, contentType)
  {
    var p := "wss://" + baseUrl + "/connect_call/";
    assert ConnectCallUri(baseUrl, conversationId) == p + conversationId;
    assert (p + conversationId)[|p|..] == conversationId;
  }

  /** Different conversations get different websocket URIs. */
  lemma ConnectUriInjective(baseUrl: string, id1: string, id2: string)
    requires ConnectCallUri(baseUrl, id1) == ConnectCallUri(baseUrl, id2)
    ensures id1 == id2
  {
    var p := "wss://" + baseUrl + "/connect_call/";
    assert ConnectCallUri(baseUrl, id1) == p + id1;
    assert ConnectCallUri(baseUrl, id2) == p + id2;
    assert (p + id1)[|p|..] == id1;
    assert (p + id2)[|p|..] == id2;
  }
}
