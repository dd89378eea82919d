/** The two message templates of the plugin (cabot_alert_twilio/models.py:18-28),
    rendered the way the template engine renders them: every interpolated
    value is HTML-escaped, literal template text is copied as it is. */
module Rendering {

  /** The service statuses of the monitoring framework, as far as the templates see them. */
  datatype Status = Passing | Warning | Error | Critical | Acked

  /** The text the framework stores for each status (`{{ service.overall_status }}`). */
  function StatusName(s: Status): string
  {
    match s
    case Passing => "PASSING"
    case Warning => "WARNING"
    case Error => "ERROR"
    case Critical => "CRITICAL"
    case Acked => "ACKED"
  }

  /** The part of a monitored service the templates read. */
  datatype Service = Service(name: string, overallStatus: Status, id: nat)

  // ---------------------------------------------------------------------------
  // HTML autoescaping of interpolated values

  /** Characters the template engine's autoescaping rewrites. */
  predicate IsSpecial(c: char)
  {
    c == '&' || c == '<' || c == '>' || c == '"' || c == '\''
  }

  /** Characters that can end a quoted attribute or open a tag. */
  predicate IsMarkup(c: char)
  {
    c == '<' || c == '>' || c == '"' || c == '\''
  }

  function EscapeChar(c: char): string
  {
    match c
    case '&' => "&amp;"
    case '<' => "&lt;"
    case '>' => "&gt;"
    case '"' => "&quot;"
    case '\'' => "&#39;"
    case _ => [c]
  }

  /** Escaping of one interpolated value, character by character. */
  function Escape(s: string): string
  {
    if s == [] then [] else EscapeChar(s[0]) + Escape(s[1..])
  }

  /** No markup character survives escaping. */
  lemma {:induction false} EscapeRemovesMarkup(s: string)
    ensures forall i :: 0 <= i < |Escape(s)| ==> !IsMarkup(Escape(s)[i])
  {
    if s != [] {
      EscapeRemovesMarkup(s[1..]);
      var r, h := Escape(s), EscapeChar(s[0]);
      assert r == h + Escape(s[1..]);
      forall i | 0 <= i < |r| ensures !IsMarkup(r[i]) {
        if i >= |h| {
          assert r[i] == Escape(s[1..])[i - |h|];
        }
      }
    }
  }

  /** A value without special characters is copied unchanged. */
  lemma {:induction false} EscapePlain(s: string)
    requires forall i :: 0 <= i < |s| ==> !IsSpecial(s[i])
    ensures Escape(s) == s
  {
    if s != [] {
      EscapePlain(s[1..]);
      assert s == [s[0]] + s[1..];
    }
  }

  /** The escaped form of one character, followed by anything, gives the
      character back: the escaped forms are prefix-free. */
  lemma EscapeCharDecides(x: char, y: char, s: string, t: string)
    requires EscapeChar(x) + s == EscapeChar(y) + t
    ensures x == y && s == t
  {
    var l, r := EscapeChar(x) + s, EscapeChar(y) + t;
    assert l[0] == EscapeChar(x)[0] && r[0] == EscapeChar(y)[0];
    if IsSpecial(x) && IsSpecial(y) {
      assert l[1] == EscapeChar(x)[1] && r[1] == EscapeChar(y)[1];
    }
    assert x == y;
    assert s == l[|EscapeChar(x)|..];
    assert t == r[|EscapeChar(y)|..];
  }

  /** Different values are escaped differently. */
  lemma {:induction false} EscapeInjective(a: string, b: string)
    requires Escape(a) == Escape(b)
    ensures a == b
  {
    if a != [] && b != [] {
      EscapeCharDecides(a[0], b[0], Escape(a[1..]), Escape(b[1..]));
      EscapeInjective(a[1..], b[1..]);
      assert a == [a[0]] + a[1..];
      assert b == [b[0]] + b[1..];
    }
  }

  // ---------------------------------------------------------------------------
  // Decimal rendering of the service id in `/service/<id>/`

  function DigitChar(d: nat): (c: char)
    requires d < 10
    ensures '0' <= c <= '9' && c as int - '0' as int == d
  {
    "0123456789"[d]
  }

  predicate IsDigits(s: string)
  {
    forall i :: 0 <= i < |s| ==> '0' <= s[i] <= '9'
  }

  /** The decimal text of an integer id: digits only, no leading zero. */
  function Decimal(n: nat): (r: string)
    ensures |r| >= 1 && IsDigits(r)
    ensures r[0] == '0' ==> n == 0
  {
    if n < 10 then [DigitChar(n)] else Decimal(n / 10) + [DigitChar(n % 10)]
  }

  /** The value a string of digits denotes. */
  function DecimalValue(s: string): nat
    requires IsDigits(s)
  {
    if s == [] then 0 else DecimalValue(s[..|s| - 1]) * 10 + (s[|s| - 1] as int - '0' as int)
  }

  /** The id in a link can be read back. */
  lemma {:induction false} DecimalRoundTrip(n: nat)
    ensures DecimalValue(Decimal(n)) == n
  {
    if n >= 10 {
      var r := Decimal(n);
      assert r[..|r| - 1] == Decimal(n / 10);
      DecimalRoundTrip(n / 10);
    }
  }

  // ---------------------------------------------------------------------------
  // The voice template

  const VoicePrefix: string := "This is an urgent message from Affirm monitoring. Service \""
  const VoiceSuffix: string := "\" is facing an issue. Please check Cabot urgently."

  /** `telephone_template` rendered for a service. */
  function VoiceText(service: Service): string
  {
    VoicePrefix + Escape(service.name) + VoiceSuffix
  }

  /** The voice text names the service unambiguously: two services get the
      same text only when they have the same name. */
  lemma VoiceTextDeterminesName(s1: Service, s2: Service)
    ensures VoiceText(s1) == VoiceText(s2) ==> s1.name == s2.name
  {
    if VoiceText(s1) == VoiceText(s2) {
      Cancel(VoicePrefix, Escape(s1.name), Escape(s2.name), VoiceSuffix);
      EscapeInjective(s1.name, s2.name);
    }
  }

  /** For a name without special characters, the text is the sentence with the raw name. */
  lemma VoiceTextPlainName(service: Service)
    requires forall i :: 0 <= i < |service.name| ==> !IsSpecial(service.name[i])
    ensures VoiceText(service)
      == "This is an urgent message from Affirm monitoring. Service \"" + service.name
         + "\" is facing an issue. Please check Cabot urgently."
  {
    EscapePlain(service.name);
  }

  // ---------------------------------------------------------------------------
  // The SMS template

  /** `{{ scheme }}://{{ host }}{% url 'service' pk=service.id %}` */
  function ServiceUrl(scheme: string, host: string, id: nat): string
  {
    Escape(scheme) + "://" + Escape(host) + "/service/" + Decimal(id) + "/"
  }

  /** The middle of the SMS body, chosen by the status. */
  function StatusPhrase(status: Status): string
  {
    if status == Passing then "is back to normal" else "reporting " + StatusName(status) + " status"
  }

  /** `sms_template` rendered for a service, the site's scheme and host. */
  function SmsBody(service: Service, scheme: string, host: string): string
  {
    "Service " + Escape(service.name) + " " + StatusPhrase(service.overallStatus)
      + " : " + ServiceUrl(scheme, host, service.id)
  }

  /** The body is the back-to-normal message exactly when the status is
      PASSING, and the status report otherwise; both end with the link. */
  lemma SmsBodyCases(service: Service, scheme: string, host: string)
    ensures var link := ServiceUrl(scheme, host, service.id);
      (SmsBody(service, scheme, host)
         == "Service " + Escape(service.name) + " " + "is back to normal" + " : " + link)
      <==> service.overallStatus == Passing
    ensures service.overallStatus != Passing ==>
      SmsBody(service, scheme, host)
        == "Service " + Escape(service.name) + " " + ("reporting " + StatusName(service.overallStatus) + " status")
           + " : " + ServiceUrl(scheme, host, service.id)
  {
    if service.overallStatus != Passing {
      var link := ServiceUrl(scheme, host, service.id);
      var head := "Service " + Escape(service.name) + " ";
      var normal := head + "is back to normal" + " : " + link;
      var body := head + StatusPhrase(service.overallStatus) + " : " + link;
      assert normal[|head|] == "is back to normal"[0];
      assert body[|head|] == StatusPhrase(service.overallStatus)[0];
    }
  }

  lemma StatusPhraseInjective(a: Status, b: Status)
    ensures StatusPhrase(a) == StatusPhrase(b) ==> a == b
  {
    if StatusPhrase(a) == StatusPhrase(b) && a != Passing && b != Passing {
      var x, y := StatusName(a), StatusName(b);
      assert |x| == |y|;
      assert x == StatusPhrase(a)[10..10 + |x|];
      assert y == StatusPhrase(b)[10..10 + |y|];
    }
  }

  lemma SmsBodyShape(service: Service, scheme: string, host: string)
    ensures SmsBody(service, scheme, host)
      == ("Service " + Escape(service.name) + " ") + StatusPhrase(service.overallStatus)
         + (" : " + ServiceUrl(scheme, host, service.id))
  {
    var h, p, l := "Service " + Escape(service.name) + " ", StatusPhrase(service.overallStatus), ServiceUrl(scheme, host, service.id);
    assert h + p + " : " + l == h + p + (" : " + l);
  }

  lemma Cancel(h: string, p: string, q: string, t: string)
    requires h + p + t == h + q + t
    ensures p == q
  {
    var x, y := h + p + t, h + q + t;
    assert |p| == |q|;
    forall i | 0 <= i < |p| ensures p[i] == q[i] {
      assert x[|h| + i] == p[i];
      assert y[|h| + i] == q[i];
    }
  }

  /** Bodies for the same service and site are equal only when the statuses
      are: the message always tells which status the service is in. */
  lemma SmsBodyDeterminesStatus(service: Service, status: Status, scheme: string, host: string)
    ensures SmsBody(service, scheme, host) == SmsBody(service.(overallStatus := status), scheme, host)
      ==> status == service.overallStatus
  {
    var head := "Service " + Escape(service.name) + " ";
    var tail := " : " + ServiceUrl(scheme, host, service.id);
    var p, q := StatusPhrase(service.overallStatus), StatusPhrase(status);
    if SmsBody(service, scheme, host) == SmsBody(service.(overallStatus := status), scheme, host) {
      SmsBodyShape(service, scheme, host);
      SmsBodyShape(service.(overallStatus := status), scheme, host);
      Cancel(head, p, q, tail);
      StatusPhraseInjective(service.overallStatus, status);
    }
  }

  lemma DecimalExample()
    ensures Decimal(2194) == "2194"
  {
    assert Decimal(2) == "2";
    assert Decimal(21) == "21";
    assert Decimal(219) == "219";
  }

  /** Escaping works character by character. */
  lemma {:induction false} EscapeAppend(a: string, b: string)
    ensures Escape(a + b) == Escape(a) + Escape(b)
  {
    if a != [] {
      assert (a + b)[1..] == a[1..] + b;
      EscapeAppend(a[1..], b);
    } else {
      assert a + b == b;
    }
  }

  lemma EscapeServiceName()
    ensures Escape("Service") == "Service"
  {
    assert Escape("Serv") == "Serv";
    assert Escape("ice") == "ice";
    EscapeAppend("Serv", "ice");
    assert "Serv" + "ice" == "Service";
  }

  lemma EscapeScheme()
    ensures Escape("http") == "http"
  {
    assert Escape("ht") == "ht";
    assert Escape("tp") == "tp";
    EscapeAppend("ht", "tp");
    assert "ht" + "tp" == "http";
  }

  lemma EscapeHost()
    ensures Escape("localhost") == "localhost"
  {
    assert Escape("loca") == "loca";
    assert Escape("lhost") == "lhost";
    EscapeAppend("loca", "lhost");
    assert "loca" + "lhost" == "localhost";
  }

  lemma LinkExample()
    ensures ServiceUrl("http", "localhost", 2194) == "http" + "://" + "localhost" + "/service/" + "2194" + "/"
  {
    DecimalExample();
    EscapeScheme();
    EscapeHost();
  }

  /** The message the plugin's tests expect when service 2194 goes from PASSING to ERROR. */
  lemma SmsBodyErrorExample()
    ensures SmsBody(Service("Service", Error, 2194), "http", "localhost")
      == "Service " + "Service" + " " + ("reporting " + "ERROR" + " status")
         + " : " + ("http" + "://" + "localhost" + "/service/" + "2194" + "/")
  {
    LinkExample();
    EscapeServiceName();
  }

  /** The message the plugin's tests expect when service 2194 goes from ERROR to PASSING. */
  lemma SmsBodyPassingExample()
    ensures SmsBody(Service("Service", Passing, 2194), "http", "localhost")
      == "Service " + "Service" + " " + "is back to normal"
         + " : " + ("http" + "://" + "localhost" + "/service/" + "2194" + "/")
  {
    LinkExample();
    EscapeServiceName();
  }
}
