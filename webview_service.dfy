/** The webview's wallet service: every operation is a message to the
    extension host, answered asynchronously by a message carrying the same
    command. Pending requests wait in a table keyed by command name; the
    message listener settles and removes the entry its reply names.
    Promises are flattened: a request is a ticket, and settling it records
    its outcome. `Date.now()` and the transport are outside the model. */
module WebviewService {
  import opened Results
  import Decimal

  /** The `any` payloads that travel between webview and host. */
  datatype Json =
    | JNull
    | JBool(b: bool)
    | JNumber(n: real)
    | JString(s: string)
    | JArray(items: seq<Json>)
    | JObject(fields: seq<(string, Json)>)

  /** What `vscode.postMessage` is handed: `{command, messageId, data}`;
      `data` is `undefined` for commands without arguments. */
  datatype Message = Message(command: string, messageId: string, data: Option<Json>)

  /** A message from the host: `{command, data?, error?}`. */
  datatype Reply = Reply(command: string, data: Option<Json>, error: Option<string>)

  /** The public operations of the service and their arguments. */
  datatype Call =
    | WalletCreate
    | WalletConnect(phrase: string)
    | GetWalletBalance(address: string)
    | TransactionSend(to: string, amount: string)
    | WalletTransactHistory(address: string)
    | EstimateGasFee(to: string, amount: string)
    | GetCurrETHPrice

  /** The command each operation posts: its own method name. */
  function Command(call: Call): string {
    match call
    case WalletCreate => "walletCreate"
    case WalletConnect(_) => "walletConnect"
    case GetWalletBalance(_) => "getWalletBalance"
    case TransactionSend(_, _) => "transactionSend"
    case WalletTransactHistory(_) => "walletTransactHistory"
    case EstimateGasFee(_, _) => "estimateGasFee"
    case GetCurrETHPrice => "getCurrETHPrice"
  }

  /** The payload each operation posts, an object with one field per
      argument under the argument's name; none for argument-less calls. */
  function Payload(call: Call): Option<Json> {
    match call
    case WalletCreate => None
    case WalletConnect(phrase) => Some(JObject([("phrase", JString(phrase))]))
    case GetWalletBalance(address) => Some(JObject([("address", JString(address))]))
    case TransactionSend(to, amount) => Some(JObject([("to", JString(to)), ("amount", JString(amount))]))
    case WalletTransactHistory(address) => Some(JObject([("address", JString(address))]))
    case EstimateGasFee(to, amount) => Some(JObject([("to", JString(to)), ("amount", JString(amount))]))
    case GetCurrETHPrice => None
  }

  /** Both calls are to the same public method. */
  predicate SameKind(a: Call, b: Call) {
    && a.WalletCreate? == b.WalletCreate? && a.WalletConnect? == b.WalletConnect?
    && a.GetWalletBalance? == b.GetWalletBalance? && a.TransactionSend? == b.TransactionSend?
    && a.WalletTransactHistory? == b.WalletTransactHistory? && a.EstimateGasFee? == b.EstimateGasFee?
    && a.GetCurrETHPrice? == b.GetCurrETHPrice?
  }

  /** Calls of different kinds use different commands, so a reply for one
      can never settle another; the payload carries exactly the arguments,
      so a call is determined by its command and payload. */
  lemma CommandsDistinguishCalls(a: Call, b: Call)
    ensures Command(a) == Command(b) <==> SameKind(a, b)
    ensures Command(a) == Command(b) && Payload(a) == Payload(b) ==> a == b
  {
    match a
    case WalletCreate =>
    case WalletConnect(_) =>
    case GetWalletBalance(_) =>
    case TransactionSend(_, _) =>
    case WalletTransactHistory(_) =>
    case EstimateGasFee(_, _) =>
    case GetCurrETHPrice =>
  }

  /** `${command}-${Date.now()}`: the command, a dash and the clock's
      milliseconds in decimal. */
  function MessageId(command: string, now: nat): (id: string)
    ensures |id| > |command| + 1
    ensures id[..|command|] == command && id[|command|] == '-'
    ensures Decimal.AllDigits(id[|command| + 1..])
    ensures Decimal.Value(id[|command| + 1..]) == now
  {
    var id := command + "-" + Decimal.Show(now);
    assert id[|command| + 1..] == Decimal.Show(now);
    Decimal.ValueOfShow(now);
    id
  }

  /** Two sends of the same command in the same millisecond get the same id;
      in different milliseconds, different ids. */
  lemma MessageIdDistinct(command: string, t1: nat, t2: nat)
    ensures MessageId(command, t1) == MessageId(command, t2) <==> t1 == t2
  {
    if MessageId(command, t1) == MessageId(command, t2) {
      var k := |command| + 1;
      assert MessageId(command, t1)[k..] == MessageId(command, t2)[k..];
    }
  }

  /** JavaScript truthiness of the reply's `error`: present and not "". */
  predicate IsError(reply: Reply) {
    reply.error.Some? && reply.error.value != ""
  }

  /** What the callback does with a reply: reject with its error when the
      error is truthy, otherwise resolve with its data. */
  function Settle(reply: Reply): (r: Result<Option<Json>>)
    ensures r.Err? <==> IsError(reply)
    ensures r.Err? ==> r.error == reply.error.value
    ensures r.Ok? ==> r.value == reply.data
  {
    if IsError(reply) then Err(reply.error.value) else Ok(reply.data)
  }

  class WalletService {
    /** `messageCallbacks`: for each command, the request whose callback
        waits for its reply. */
    var messageCallbacks: map<string, nat>
    /** The outcome of every request whose callback has run. */
    var settled: map<nat, Result<Option<Json>>>
    /** Requests made so far; requests are numbered from 0. */
    var requests: nat
    /** Everything posted to the host, oldest first. */
    var posted: seq<Message>

    /** A waiting request is one that was made and has not been settled,
        and no request waits under two commands. */
    ghost predicate Valid()
      reads this
    {
      && (forall c :: c in messageCallbacks ==> messageCallbacks[c] < requests)
      && (forall c :: c in messageCallbacks ==> messageCallbacks[c] !in settled)
      && (forall t :: t in settled ==> t < requests)
      && (forall c, d :: c in messageCallbacks && d in messageCallbacks && c != d ==>
            messageCallbacks[c] != messageCallbacks[d])
    }

    constructor ()
      ensures Valid()
      ensures messageCallbacks == map[] && settled == map[] && requests == 0 && posted == []
    {
      messageCallbacks := map[];
      settled := map[];
      requests := 0;
      posted := [];
    }

    /** `sendMessage(command, data)`: registers a fresh callback under the
        command, overwriting (and so orphaning) any request still waiting
        there, and posts the message. Returns the new request. */
    method SendMessage(command: string, data: Option<Json>, now: nat) returns (request: nat)
      requires Valid()
      modifies this
      ensures Valid()
      ensures request == old(requests) && requests == old(requests) + 1
      ensures messageCallbacks == old(messageCallbacks)[command := request]
      ensures settled == old(settled)
      ensures posted == old(posted) + [Message(command, MessageId(command, now), data)]
      ensures command in old(messageCallbacks) ==>
        var orphan := old(messageCallbacks)[command];
        orphan !in settled && orphan !in messageCallbacks.Values
    {
      request := requests;
      requests := requests + 1;
      messageCallbacks := messageCallbacks[command := request];
      posted := posted + [Message(command, MessageId(command, now), data)];
    }

    /** The message listener: when a callback waits under the reply's
        command it runs once, settling its request, and is removed; every
        other entry stays. A reply nobody waits for changes nothing. */
    method OnMessage(reply: Reply)
      requires Valid()
      modifies this
      ensures Valid()
      ensures requests == old(requests) && posted == old(posted)
      ensures reply.command !in old(messageCallbacks) ==>
        messageCallbacks == old(messageCallbacks) && settled == old(settled)
      ensures reply.command in old(messageCallbacks) ==>
        var request := old(messageCallbacks)[reply.command];
        && request !in old(settled)
        && settled == old(settled)[request := Settle(reply)]
        && messageCallbacks == old(messageCallbacks) - {reply.command}
        && request !in messageCallbacks.Values
    {
      if reply.command in messageCallbacks {
        var request := messageCallbacks[reply.command];
        settled := settled[request := Settle(reply)];
        messageCallbacks := messageCallbacks - {reply.command};
      }
    }

    /** Each public method: `sendMessage` with the method's own command
        and payload. */
    method Invoke(call: Call, now: nat) returns (request: nat)
      requires Valid()
      modifies this
      ensures Valid()
      ensures request == old(requests) && requests == old(requests) + 1
      ensures messageCallbacks == old(messageCallbacks)[Command(call) := request]
      ensures settled == old(settled)
      ensures posted == old(posted) + [Message(Command(call), MessageId(Command(call), now), Payload(call))]
    {
      request := SendMessage(Command(call), Payload(call), now);
    }
  }
}
