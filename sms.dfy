/** The SMS alert (TwilioSMS.send_alert, cabot_alert_twilio/models.py:108-134).

    The provider is given as the answers it would give: `delivered(n)` is
    false when sending the n-th message of the run raises. A run is
    recorded as the list of messages handed to the provider. */
module Sms {
  import opened Wrappers
  import opened Rendering
  import opened Contacts

  datatype Message = Message(to: string, from: string, body: string)

  /** `send_alert` returns (`Delivered`), or raises while sending to the given recipient. */
  datatype Outcome = Delivered | SendRaised(recipient: nat)

  /** `TwilioSMS.send_alert`: the users and the duty officers are looked up
      together, and `contacts` holds the stored numbers of the records that
      lookup returns, once per record and in the order returned. One body is
      rendered, then sent to every contact that has a number, in that order,
      until a send raises. The messages are all from the outgoing number with
      the same body; the run delivers to everyone exactly when no send raises,
      and otherwise stops right after the first send that raised. */
  method SendAlert(service: Service, contacts: seq<Option<string>>,
                   outgoing: string, scheme: string, host: string, delivered: nat -> bool)
    returns (outcome: Outcome, messages: seq<Message>)
    ensures |messages| <= |Mobiles(contacts)|
    ensures forall j :: 0 <= j < |messages| ==>
      messages[j] == Message(Mobiles(contacts)[j], outgoing, SmsBody(service, scheme, host))
    ensures outcome == Delivered <==> forall j :: 0 <= j < |Mobiles(contacts)| ==> delivered(j)
    ensures outcome == Delivered ==> |messages| == |Mobiles(contacts)|
    ensures outcome.SendRaised? ==>
      && |messages| == outcome.recipient + 1
      && !delivered(outcome.recipient)
      && forall j :: 0 <= j < outcome.recipient ==> delivered(j)
  {
    var mobiles := Mobiles(contacts);
    var body := SmsBody(service, scheme, host);
    messages := [];
    for i := 0 to |mobiles|
      invariant |messages| == i
      invariant forall j :: 0 <= j < i ==> messages[j] == Message(mobiles[j], outgoing, body)
      invariant forall j :: 0 <= j < i ==> delivered(j)
    {
      messages := messages + [Message(mobiles[i], outgoing, body)];
      if !delivered(i) {
        return SendRaised(i), messages;
      }
    }
    outcome := Delivered;
  }
}
