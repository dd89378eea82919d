# cabot-alert-twilio in Dafny

A model of the Twilio alert plugin for the Cabot monitoring dashboard. When a
monitored service changes status, the plugin tells the people on call. It
texts them, or it phones them through Twilio's twimlets echo service.

The model covers the plugin's own decision logic:

- `PhoneCall`: the phone-call alert (`TwilioPhoneCall.send_alert`). Nothing
  happens unless the service is CRITICAL. Otherwise the duty officers who have
  a number are dialled one by one, in the order the lookup returns them. Each call must start QUEUED. It is then
  refreshed up to `RETRY_COUNT` (5) times, stopping at the first refresh that
  reports COMPLETED. The run raises if the call did not complete, or if a
  machine answered. A raise ends the run, so no later contact is dialled.
  `PollFrom`, `CallContact`, `DialFrom` and `PhoneAlert` are the
  specification as functions. `Poll`, `CallOne`, `DialAll` and `SendAlert`
  are the imperative code: a `while` loop that counts down, inside a loop
  over the contacts. Each is proved equal to its specification function.
- `Sms`: the SMS alert (`TwilioSMS.send_alert`). The users and the duty
  officers are looked up together, in one query. One body is rendered. It is
  then sent to every contact found that has a number, in the order the lookup
  returns them, until a send raises.
- `Rendering`: the voice sentence and the SMS body. These are the templates as
  the template engine renders them. Each interpolated value is HTML-escaped.
  The service id is written in decimal inside `/service/<id>/`.
- `Contacts`: phone-number normalisation on `TwilioUserData`. `Save` strips one
  leading `+` in place. It raises instead when the number is not ASCII text,
  as `str()` of a unicode value does under Python 2. `PrefixedPhoneNumber`
  puts a `+` back in front. `Mobiles` is the list comprehension that keeps
  the contacts that have a number.

The Twilio provider is not modelled. It is given as the answers it would
return. For phone calls, `Telephony.create(n)` is the answer to placing the
n-th call of a run. `Telephony.update(n)(k)` is the answer to the k-th refresh
of that call. Either one can be a raised error. For SMS, `delivered(n)` is
false when the n-th send raises. A run is recorded as the list of requests
made to the provider. An exception becomes the `Raised` / `SendRaised`
outcome, which records the contact it happened at.

The code, not the intent described around it, decides two points:

- The phone loop does not stop once a person answers. Every numbered duty
  officer is dialled, provided each call is answered by a person. A comment in
  tests/test_twilio.py:115 says the plugin "should stop after the first".
- A call that ends unanswered, or that a machine answered, raises. The loop
  does not move on to the next contact. Any fallback to another officer
  belongs to the alert framework that calls `send_alert`.

## Model

| member | source | states |
|---|---|---|
| `Rendering.Escape` | cabot_alert_twilio/models.py:18-28 | the template engine's autoescape of an interpolated value: `&`, `<`, `>`, `"` and `'` become `&amp;`, `&lt;`, `&gt;`, `&quot;` and `&#39;`, every other character is kept; its properties are the lemmas below |
| `Rendering.EscapeInjective` | cabot_alert_twilio/models.py:18-28 | two values with the same escaped form are the same value, so an interpolated value can be read back |
| `Rendering.EscapeRemovesMarkup` | cabot_alert_twilio/models.py:18-28 | no `<`, `>`, `"` or `'` remains in an escaped interpolated value |
| `Rendering.EscapePlain` | cabot_alert_twilio/models.py:18-28 | a value with no special character is interpolated unchanged |
| `Rendering.Decimal` | cabot_alert_twilio/models.py:28 | the id in the service link is non-empty, made only of digits, and has no leading zero |
| `Rendering.DecimalRoundTrip` | cabot_alert_twilio/models.py:28 | the id can be read back from its decimal text |
| `Rendering.VoiceText` | cabot_alert_twilio/models.py:18-20 | the rendered telephone template: the fixed sentence around the escaped service name; its properties are the two lemmas below |
| `Rendering.VoiceTextDeterminesName` | cabot_alert_twilio/models.py:18-20 | two services get the same voice text only when they have the same name: the name can be read back from the call |
| `Rendering.VoiceTextPlainName` | cabot_alert_twilio/models.py:18-20 | for a name with no special character, the voice text is exactly `This is an urgent message from Affirm monitoring. Service "<name>" is facing an issue. Please check Cabot urgently.` |
| `Rendering.ServiceUrl` | cabot_alert_twilio/models.py:28 | the link at the end of the SMS: escaped scheme, `://`, escaped host, then the reversed `service` URL `/service/<id>/` |
| `Rendering.StatusPhrase` | cabot_alert_twilio/models.py:23-27 | the `if` in the SMS template: `is back to normal` on PASSING, otherwise `reporting <STATUS> status` |
| `Rendering.SmsBody` | cabot_alert_twilio/models.py:22-28 | the rendered SMS template; its properties are the lemmas below |
| `Rendering.SmsBodyCases` | cabot_alert_twilio/models.py:22-28 | the body is `Service <name> is back to normal : <link>` if and only if the status is PASSING; otherwise it is `Service <name> reporting <STATUS> status : <link>` |
| `Rendering.StatusPhraseInjective` | cabot_alert_twilio/models.py:23-27 | different statuses give different middle phrases |
| `Rendering.SmsBodyDeterminesStatus` | cabot_alert_twilio/models.py:22-28 | two bodies for the same service and site are equal only if their statuses are equal |
| `Rendering.SmsBodyErrorExample` | tests/test_twilio.py:27-33 | the body for service 2194 in ERROR on http://localhost is `Service Service reporting ERROR status : http://localhost/service/2194/` |
| `Rendering.SmsBodyPassingExample` | tests/test_twilio.py:36-42 | the body for service 2194 back in PASSING is `Service Service is back to normal : http://localhost/service/2194/` |
| `Contacts.WithPlus` | cabot_alert_twilio/models.py:146-148 | the read-side number always starts with `+`; a missing number reads as `+None`, as `'+%s' % None` gives |
| `Contacts.Stored` | cabot_alert_twilio/models.py:142-143 | the number `save` stores when it does not raise: the value without its leading `+` if `str()` of it starts with one, otherwise unchanged; its properties are the lemmas below |
| `Contacts.SaveRaises` | cabot_alert_twilio/models.py:142 | `str()` of the number raises when it holds a character outside ASCII; a missing number reads as `None` and does not raise |
| `Contacts.StoredStripsOnePlus` | cabot_alert_twilio/models.py:141-144 | saving removes exactly one leading `+` (putting it back gives the input) and leaves any other value unchanged, including a missing number |
| `Contacts.SaveThenRead` | cabot_alert_twilio/models.py:141-148 | a number saved with or without its leading `+` reads back as `+` followed by the digits |
| `Contacts.SaveThenReadExample` | tests/test_twilio.py:23-31 | both `15554443333` and `+15554443333` are saved without raising and read back as `+15554443333` |
| `Contacts.TwilioUserData.Save` | cabot_alert_twilio/models.py:141-144 | raises, leaving the field unchanged, exactly when the number is not ASCII text; otherwise the field becomes the stripped number, and reading the prefixed number afterwards gives the input itself if it started with `+`, otherwise `+` followed by the input |
| `Contacts.TwilioUserData.PrefixedPhoneNumber` | cabot_alert_twilio/models.py:146-148 | `+` followed by the stored number; `+None` when the number is missing |
| `Contacts.Mobiles` | cabot_alert_twilio/models.py:71 | at most one number per contact |
| `Contacts.MobilesArePrefixed` | cabot_alert_twilio/models.py:71 | every number kept is `+` followed by at least one character |
| `Contacts.MobilesMembers` | cabot_alert_twilio/models.py:71 | a number is kept if and only if some contact has it stored, non-empty |
| `Contacts.MobilesAppend` | cabot_alert_twilio/models.py:71 | the comprehension keeps the order of the records it is given: filtering two lists one after the other is filtering their concatenation |
| `Contacts.MobilesAllNumbered` | cabot_alert_twilio/models.py:71 | when every contact has a number, all are kept, one for one and in order |
| `PhoneCall.PollFrom` | cabot_alert_twilio/models.py:85-92 | the poll loop refreshes at least once and at most 5 times; every refresh before the last reported a call that was not completed; it ends on the first refresh that raises, the first that reports COMPLETED, or the fifth |
| `PhoneCall.FirstRefreshCompletes` | cabot_alert_twilio/models.py:85-92 | a call that is COMPLETED on its first refresh is refreshed exactly once |
| `PhoneCall.Dial` | cabot_alert_twilio/models.py:74-80 | the `calls.create` request: to the number, from the outgoing number, with the URL, method `GET`, and `Hangup` when a machine answers |
| `PhoneCall.CallContactRequests` | cabot_alert_twilio/models.py:74-92 | one contact's requests are one call placement (to the number, from the outgoing number, with the URL, GET, hang up on machines) followed by at most 5 refreshes of that call |
| `PhoneCall.Verdict` | cabot_alert_twilio/models.py:94-97 | after polling: a raised refresh, a call that is not COMPLETED, or one answered by `machine` is a raise; anything else is not |
| `PhoneCall.CallContact` | cabot_alert_twilio/models.py:73-101 | one contact's try block as a function: place the call, check QUEUED, poll, judge the result; its properties are the lemmas below |
| `PhoneCall.PolledOnlyIfQueued` | cabot_alert_twilio/models.py:74-81 | a call is refreshed if and only if it was placed and started QUEUED; otherwise the run raises |
| `PhoneCall.CallContactSucceeds` | cabot_alert_twilio/models.py:81-101 | a contact's call raises nothing if and only if it was placed, started QUEUED, and its first COMPLETED refresh within 5 was not answered by `machine` |
| `PhoneCall.DialFrom` | cabot_alert_twilio/models.py:72-101 | the `for` loop over the numbers as a function: each contact's requests in turn, stopping at the first raise; its properties are the lemmas below |
| `PhoneCall.DialFromDials` | cabot_alert_twilio/models.py:72-101 | the contacts are dialled once each, in list order: all of them when the run returns, and up to and including the one that raised otherwise |
| `PhoneCall.DialFromDone` | cabot_alert_twilio/models.py:72-101 | the run returns if and only if every contact's call is answered by a person; it does not stop after the first answer |
| `PhoneCall.DialFromRaised` | cabot_alert_twilio/models.py:94-101 | the contact a run raises at is the first whose call was not answered by a person |
| `PhoneCall.DialFromSameMessage` | cabot_alert_twilio/models.py:56-80 | every placed call uses the same outgoing number and URL, GET, and `Hangup` on machines |
| `PhoneCall.TwimletUrl` | cabot_alert_twilio/models.py:55-65 | `http://twimlets.com/echo?` followed by the encoded TwiML document that says the rendered voice text |
| `PhoneCall.PhoneAlert` | cabot_alert_twilio/models.py:45-101 | `send_alert` as a function: nothing unless CRITICAL, otherwise the dialling loop over the duty officers' numbers with the twimlets URL for the voice text; its properties are the lemma below |
| `PhoneCall.PhoneAlertCalls` | cabot_alert_twilio/models.py:45-101 | no request at all unless the service is CRITICAL; otherwise: the run returns if and only if every numbered duty officer's call is answered by a person, in which case all of them are dialled in order; when it raises at contact k, exactly contacts 0..k are dialled, k is the first not answered by a person, and every call carries the one rendered voice text |
| `PhoneCall.Poll` | cabot_alert_twilio/models.py:85-92 | the count-down `while` loop ends exactly as `PollFrom` says: same end state or raise, same number of refreshes |
| `PhoneCall.CallOne` | cabot_alert_twilio/models.py:73-101 | the imperative place, check, poll and check code makes exactly the requests of `CallContact` and raises exactly when it does |
| `PhoneCall.DialAll` | cabot_alert_twilio/models.py:72-101 | the imperative loop over the numbers makes exactly the requests and has exactly the outcome of `DialFrom` |
| `PhoneCall.SendAlert` | cabot_alert_twilio/models.py:45-101 | the imperative alert makes exactly the requests and has exactly the outcome of `PhoneAlert`, and makes no request unless the service is CRITICAL |
| `Sms.SendAlert` | cabot_alert_twilio/models.py:108-134 | one message per contact found that has a number, once each and in the order the single lookup of users and duty officers returns them, all from the outgoing number with the one rendered body; the run delivers to everyone if and only if no send raises; otherwise it stops right after the first send that raised |

## Left out

- The Twilio client (`Client`, `calls.create`, `call.update()`, `messages.create`) is a network library. The model replaces it with the answers it gives (`Telephony`, `delivered`). Only the requests are recorded, not what Twilio does with them.
- The credentials and the outgoing number come from environment variables. The outgoing number is a plain parameter. The account id and auth token are not modelled.
- `time.sleep(5)` before each refresh is a real-time wait. Only the number of refreshes (`RefreshCall` requests) is modelled.
- Logging (`logger.debug`, `logger.exception`) is left out. A logged-and-re-raised exception is modelled as the raised outcome.
- The TwiML document (`VoiceResponse.say(..., voice='woman')`, `to_xml`) and the URL encoding are library output. They are the opaque parameter `twiml`. Only the `http://twimlets.com/echo?` prefix and the voice text given to it are modelled.
- The database lookup `TwilioUserData.objects.filter(user__user__in=...)` is left out, including the order in which it returns rows. The model takes the stored numbers of the records it returns, once per record and in that order. For SMS this is the one lookup over users and duty officers together, so a person in both lists is texted once. A user with no record is not in the list.
- Whether `phone_number` holds a unicode or a byte string is not modelled. The number is text as loaded from the database, and `save` raises on non-ASCII text as `str()` does under Python 2.
- `super().save()` (writing the row) and the 30-character column limit belong to the ORM. They are not modelled.
- The template engine is reduced to what these two templates use: variable interpolation with HTML autoescaping (`&`, `<`, `>`, `"`, `'`) and the `if` on PASSING. The `{% url 'service' %}` reversal is modelled as the path `/service/<id>/`.
- The status names (PASSING, WARNING, ERROR, CRITICAL, ACKED) are defined by the monitoring framework. The model writes them as the plugin's tests show them.
- The alert framework (`AlertPlugin`, the code that calls `send_alert` on a status change) is not part of this model. It decides whether an alert is sent at all; for example, its tests send no SMS on ERROR to ACKED, although `TwilioSMS.send_alert` has no status check. It also decides any retry with the next officer after a raise.
- Python's `assert` statements are modelled as raising. The model does not cover running Python with assertions disabled.
