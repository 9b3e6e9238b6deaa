/**
 * The chat page's session state and its handlers: socket events append
 * records to the message log, the identity list shows the other clients,
 * and the register and send forms are guarded by non-blank checks.
 */
module Session {
  import opened JsString
  import opened Seqs
  import TerminalCommands

  /** An entry of the message log; the constructor is its `type`
      (`received`, `sent` or `error`), and timestamps are left out. */
  datatype Record =
    | Received(from: string, message: string)
    | Sent(to: string, message: string)
    | Failed(to: string, error: string)

  /** What the page emits on its socket. */
  datatype Emit =
    | RegisterId(clientId: string)
    | Send(to: string, from: string, message: string)

  /** The guard of the register form: `clientId.trim()` is non-empty. */
  predicate CanRegister(clientId: string)
  {
    Trim(clientId) != ""
  }

  /** The guard of the send form: `message.trim()` and `recipient` are
      non-empty. */
  predicate CanSend(message: string, recipient: string)
  {
    Trim(message) != "" && recipient != ""
  }

  /** Registration needs an identity with at least one non-space character. */
  lemma CanRegisterIff(clientId: string)
    ensures CanRegister(clientId) <==> exists k :: 0 <= k < |clientId| && !IsSpace(clientId[k])
  {
    TrimEmptyIff(clientId);
  }

  /** Sending needs a message with at least one non-space character and a
      recipient. */
  lemma CanSendIff(message: string, recipient: string)
    ensures CanSend(message, recipient) <==>
      (exists k :: 0 <= k < |message| && !IsSpace(message[k])) && recipient != []
  {
    TrimEmptyIff(message);
  }

  /** The `clientList` listener filters with the identity it closed over
      when it was attached on mount, which is the empty string: an identity
      chosen afterwards stays in the list of other clients. */
  lemma ClientListKeepsOwnId(clients: seq<string>, clientId: string)
    requires clientId != "" && clientId in clients
    ensures clientId in Without(clients, "")
  {
  }

  class Client {
    var clientId: string
    var registered: bool
    var message: string
    var recipient: string
    var messages: seq<Record>
    var commandHistory: seq<string>
    var availableClients: seq<string>
    /** Everything emitted on the socket so far. */
    var emitted: seq<Emit>
    /** The `clientId` of the first render, seen by the `clientList` listener. */
    const capturedId: string

    constructor ()
      ensures clientId == "" && !registered && message == "" && recipient == ""
      ensures messages == [] && commandHistory == [] && availableClients == [] && emitted == []
      ensures capturedId == ""
    {
      clientId, registered, message, recipient := "", false, "", "";
      messages, commandHistory, availableClients, emitted := [], [], [], [];
      capturedId := "";
    }

    /** Typing an identity; when it changes, the effect on `clientId` drops it
        from the list of other clients. */
    method SetClientId(id: string)
      modifies this`clientId, this`availableClients
      ensures clientId == id
      ensures availableClients == if id != old(clientId) then Without(old(availableClients), id)
                                  else old(availableClients)
    {
      if id != clientId {
        clientId := id;
        availableClients := Without(availableClients, id);
      }
    }

    method SetRecipient(r: string)
      modifies this`recipient
      ensures recipient == r
    {
      recipient := r;
    }

    method SetMessage(m: string)
      modifies this`message
      ensures message == m
    {
      message := m;
    }

    /** The `clientList` listener. */
    method OnClientList(clients: seq<string>)
      modifies this`availableClients
      ensures availableClients == Without(clients, capturedId)
    {
      availableClients := Without(clients, capturedId);
    }

    /** The `receiveMessage` listener. */
    method OnReceiveMessage(from: string, msg: string)
      modifies this`messages
      ensures messages == old(messages) + [Received(from, msg)]
    {
      messages := messages + [Received(from, msg)];
    }

    /** The `messageSent` listener. */
    method OnMessageSent(to: string, msg: string)
      modifies this`messages
      ensures messages == old(messages) + [Sent(to, msg)]
    {
      messages := messages + [Sent(to, msg)];
    }

    /** The `messageError` listener. */
    method OnMessageError(to: string, error: string)
      modifies this`messages
      ensures messages == old(messages) + [Failed(to, error)]
    {
      messages := messages + [Failed(to, error)];
    }

    /** The `userOffline` listener. */
    method OnUserOffline(to: string)
      modifies this`messages
      ensures messages == old(messages) + [Failed(to, "User " + to + " is offline")]
    {
      messages := messages + [Failed(to, "User " + to + " is offline")];
    }

    /** Submitting the register form. */
    method RegisterClient()
      modifies this`emitted, this`registered, this`commandHistory
      ensures CanRegister(clientId) ==>
        && emitted == old(emitted) + [RegisterId(clientId)]
        && registered
        && commandHistory == old(commandHistory) + ["identity assigned: " + clientId]
      ensures !CanRegister(clientId) ==>
        emitted == old(emitted) && registered == old(registered) && commandHistory == old(commandHistory)
    {
      if Trim(clientId) != "" {
        emitted := emitted + [RegisterId(clientId)];
        registered := true;
        commandHistory := commandHistory + ["identity assigned: " + clientId];
      }
    }

    /** Submitting the send form: the untrimmed message goes out, a message
        starting with '/' is also logged, and the input is cleared. */
    method SendMessage()
      modifies this`emitted, this`commandHistory, this`message
      ensures CanSend(old(message), recipient) ==>
        && emitted == old(emitted) + [Send(recipient, clientId, old(message))]
        && commandHistory == old(commandHistory) +
             (if StartsWith(old(message), "/") then ["execute: " + old(message)] else [])
        && message == ""
      ensures !CanSend(old(message), recipient) ==>
        emitted == old(emitted) && commandHistory == old(commandHistory) && message == old(message)
    {
      if Trim(message) != "" && recipient != "" {
        emitted := emitted + [Send(recipient, clientId, message)];
        if StartsWith(message, "/") {
          commandHistory := commandHistory + ["execute: " + message];
        }
        message := "";
      }
    }

    /** A quick-command button: log the echo and the response. */
    method HandleSpecialCommand(cmd: string)
      modifies this`commandHistory
      ensures commandHistory == old(commandHistory) + ["> " + cmd, TerminalCommands.SpecialResponse(cmd)]
    {
      commandHistory := commandHistory + ["> " + cmd];
      commandHistory := commandHistory + [TerminalCommands.SpecialResponse(cmd)];
    }
  }
}
