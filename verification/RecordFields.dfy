/**
 What the records say, field by field: which value of an event stands under which name, which
 signature, name and severity an event type has, and what an escape looks like.
 */
module RecordFields {
  import opened Options
  import opened Text
  import opened Escaping
  import opened Records
  import opened CefReader

  /** The values that stand under a name, in order. */
  function ValuesOf(attributes: seq<Attribute>, name: string): seq<string> {
    if attributes == [] then []
    else
      var n := |attributes| - 1;
      ValuesOf(attributes[..n], name) + if attributes[n].name == name then [attributes[n].value] else []
  }

  /** The value of a key, unless it is missing or empty. */
  function ValueOf(m: map<string, string>, key: string): seq<string> {
    if key in m && m[key] != "" then [m[key]] else []
  }

  lemma {:induction false} ValuesConcat(a: seq<Attribute>, b: seq<Attribute>, name: string)
    ensures ValuesOf(a + b, name) == ValuesOf(a, name) + ValuesOf(b, name)
  {
    if b == [] {
      assert a + b == a;
    } else {
      var n := |b| - 1;
      ValuesConcat(a, b[..n], name);
      assert (a + b)[..|a| + n] == a + b[..n];
    }
  }

  lemma {:induction false} NameOccurs(attributes: seq<Attribute>, name: string)
    ensures ValuesOf(attributes, name) != [] <==> exists i :: 0 <= i < |attributes| && attributes[i].name == name
  {
    if attributes != [] {
      var n := |attributes| - 1;
      NameOccurs(attributes[..n], name);
      if i :| 0 <= i < |attributes| && attributes[i].name == name {
        assert i < n ==> attributes[..n][i].name == name;
      }
    }
  }

  lemma PresentValues(m: map<string, string>, key: string, name: string, other: string)
    ensures ValuesOf(Present(m, key, name), other) == if other == name then ValueOf(m, key) else []
  {
    assert Present(m, key, name) != [] ==> Present(m, key, name)[..0] == [];
  }

  // ----- LEEF -----

  /** One name more, which none of the others is. */
  lemma OneMore(attributes: seq<Attribute>, m: map<string, string>, key: string, name: string, other: string)
    ensures ValuesOf(attributes + Present(m, key, name), other) ==
            ValuesOf(attributes, other) + if other == name then ValueOf(m, key) else []
  {
    ValuesConcat(attributes, Present(m, key, name), other);
    PresentValues(m, key, name, other);
  }

  lemma LeefNames()
    ensures "src" != "sev" && "srcPort" != "dstName" && "srcPort" != "devTime" && "srcPort" != "usrName"
    ensures "srcPort" != "command" && "dstName" != "devTime" && "dstName" != "usrName" && "dstName" != "command"
    ensures "devTime" != "usrName" && "devTime" != "command" && "usrName" != "command"
  {
    assert "src"[1] != "sev"[1] && "srcPort"[0] != "dstName"[0] && "srcPort"[0] != "devTime"[0];
    assert "srcPort"[0] != "usrName"[0] && "srcPort"[0] != "command"[0] && "dstName"[1] != "devTime"[1];
    assert "dstName"[0] != "usrName"[0] && "dstName"[0] != "command"[0] && "devTime"[0] != "usrName"[0];
    assert "devTime"[0] != "command"[0] && "usrName"[0] != "command"[0];
  }

  lemma LeefFieldValues(f: map<string, string>, name: string)
    ensures ValuesOf(LeefFieldAttributes(f), name) ==
            if name == "src" then ValueOf(f, "source_ip")
            else if name == "srcPort" then ValueOf(f, "source_port")
            else if name == "dstName" then ValueOf(f, "decoy_name")
            else if name == "proto" then ValueOf(f, "protocol")
            else if name == "sessionID" then ValueOf(f, "session_id")
            else if name == "devTime" then ValueOf(f, "timestamp")
            else if name == "usrName" then ValueOf(f, "username")
            else []
  {
    hide Present, ValuesOf, ValueOf;
    LeefNames();
    var a1 := Present(f, "source_ip", "src");
    var a2 := a1 + Present(f, "source_port", "srcPort");
    var a3 := a2 + Present(f, "decoy_name", "dstName");
    var a4 := a3 + Present(f, "protocol", "proto");
    var a5 := a4 + Present(f, "session_id", "sessionID");
    var a6 := a5 + Present(f, "timestamp", "devTime");
    PresentValues(f, "source_ip", "src", name);
    OneMore(a1, f, "source_port", "srcPort", name);
    OneMore(a2, f, "decoy_name", "dstName", name);
    OneMore(a3, f, "protocol", "proto", name);
    OneMore(a4, f, "session_id", "sessionID", name);
    OneMore(a5, f, "timestamp", "devTime", name);
    OneMore(a6, f, "username", "usrName", name);
  }

  /**
   What a LEEF record says under each name: the value of one field of the event, once, and nothing
   if the field is missing or empty; the severity; and under any other name nothing.
   */
  lemma LeefFieldByField(subject: string, e: Event, name: string)
    ensures var f := e.fields;
            ValuesOf(LeefAttributes(subject, e), name) ==
            if name == "src" then ValueOf(f, "source_ip")
            else if name == "srcPort" then ValueOf(f, "source_port")
            else if name == "dstName" then ValueOf(f, "decoy_name")
            else if name == "proto" then ValueOf(f, "protocol")
            else if name == "sessionID" then ValueOf(f, "session_id")
            else if name == "devTime" then ValueOf(f, "timestamp")
            else if name == "usrName" then ValueOf(f, "username")
            else if name == "command" then (if e.data.Some? then ValueOf(e.data.value, "command") else [])
            else if name == "sev" then [Digit(Severity(GetString(f, "event_type"), subject))]
            else []
    ensures var a := LeefAttributes(subject, e); a != [] && a[|a| - 1].name == "sev"
  {
    hide LeefFieldAttributes, Present, ValueOf, Severity, GetString;
    var fields, none := LeefFieldAttributes(e.fields), [];
    var all := fields + if e.data.Some? then Present(e.data.value, "command", "command") else none;
    var sev := [Attribute("sev", Digit(Severity(GetString(e.fields, "event_type"), subject)))];
    assert LeefAttributes(subject, e) == all + sev;
    assert ValuesOf(sev, name) == (if name == "sev" then [sev[0].value] else []) by {
      assert sev[..0] == [];
    }
    hide ValuesOf, LeefAttributes;
    LeefNames();
    LeefFieldValues(e.fields, name);
    if e.data.Some? {
      OneMore(fields, e.data.value, "command", "command", name);
    } else {
      assert all == fields;
    }
    ValuesConcat(all, sev, name);
  }

  // ----- CEF -----

  lemma ExpectedConcat(a: seq<Extension>, b: seq<Extension>)
    ensures Expected(a + b) == Expected(a) + Expected(b)
  {
  }

  /** A field more, with its label if it has one. */
  lemma OneMoreField(xs: seq<Extension>, m: map<string, string>, key: string, name: string, raw: bool, tag: string,
                     other: string)
    ensures ValuesOf(Expected(xs + Field(m, key, name, raw, tag)), other) ==
            ValuesOf(Expected(xs), other)
            + (if other == name then ValueOf(m, key)
               else if tag != "" && other == name + "Label" && ValueOf(m, key) != [] then [tag] else [])
  {
    var more := Field(m, key, name, raw, tag);
    ExpectedConcat(xs, more);
    ValuesConcat(Expected(xs), Expected(more), other);
    assert |name + "Label"| != |name|;
    FieldValues(m, key, name, raw, tag, other);
  }

  lemma FieldValues(m: map<string, string>, key: string, name: string, raw: bool, tag: string, other: string)
    ensures ValuesOf(Expected(Field(m, key, name, raw, tag)), other) ==
            if other == name then ValueOf(m, key)
            else if tag != "" && other == name + "Label" && ValueOf(m, key) != [] then [tag] else []
  {
    assert |name + "Label"| != |name|;
    var e := Expected(Field(m, key, name, raw, tag));
    if ValueOf(m, key) != [] {
      assert e[..1][..0] == [];
      if tag != "" {
        assert e == e[..1] + [Attribute(name + "Label", tag)];
        ValuesConcat(e[..1], [Attribute(name + "Label", tag)], other);
        assert [Attribute(name + "Label", tag)][..0] == [];
      } else {
        assert e[..1] == e;
      }
    }
  }

  /** A label, where its field has a value. */
  function LabelOf(m: map<string, string>, key: string, tag: string): seq<string> {
    if ValueOf(m, key) != [] then [tag] else []
  }

  lemma CefEventValues(f: map<string, string>, name: string)
    ensures ValuesOf(Expected(CefEventFields(f)), name) ==
            if name == "src" then ValueOf(f, "source_ip")
            else if name == "spt" then ValueOf(f, "source_port")
            else if name == "dhost" then ValueOf(f, "decoy_name")
            else if name == "proto" then ValueOf(f, "protocol")
            else if name == "externalId" then ValueOf(f, "session_id")
            else if name == "cs1" then ValueOf(f, "event_id")
            else if name == "cs1Label" then LabelOf(f, "event_id", "EventID")
            else if name == "rt" then ValueOf(f, "timestamp")
            else []
  {
    hide Field, ValuesOf, ValueOf, Expected;
    assert "src"[1] == 'r' && "spt"[1] == 'p' && "cs1"[1] == 's' && "dhost"[0] == 'd' && "proto"[0] == 'p';
    assert "cs1" + "Label" == "cs1Label";
    var a1 := Field(f, "source_ip", "src", false, "");
    var a2 := a1 + Field(f, "source_port", "spt", true, "");
    var a3 := a2 + Field(f, "decoy_name", "dhost", false, "");
    var a4 := a3 + Field(f, "protocol", "proto", false, "");
    var a5 := a4 + Field(f, "session_id", "externalId", false, "");
    var a6 := a5 + Field(f, "event_id", "cs1", false, "EventID");
    FieldValues(f, "source_ip", "src", false, "", name);
    OneMoreField(a1, f, "source_port", "spt", true, "", name);
    OneMoreField(a2, f, "decoy_name", "dhost", false, "", name);
    OneMoreField(a3, f, "protocol", "proto", false, "", name);
    OneMoreField(a4, f, "session_id", "externalId", false, "", name);
    OneMoreField(a5, f, "event_id", "cs1", false, "EventID", name);
    OneMoreField(a6, f, "timestamp", "rt", false, "", name);
  }

  lemma CefDataValues(data: Option<map<string, string>>, name: string)
    ensures ValuesOf(Expected(CefDataFields(data)), name) ==
            if data.None? then []
            else if name == "cs2" then ValueOf(data.value, "command")
            else if name == "cs2Label" then LabelOf(data.value, "command", "Command")
            else if name == "suser" then ValueOf(data.value, "username")
            else []
  {
    assert "cs2" + "Label" == "cs2Label";
    if data.Some? {
      hide Field, ValuesOf, ValueOf, Expected;
      FieldValues(data.value, "command", "cs2", false, "Command", name);
      OneMoreField(Field(data.value, "command", "cs2", false, "Command"), data.value, "username", "suser", false, "",
                   name);
    }
  }

  lemma CefLateValues(f: map<string, string>, name: string)
    ensures ValuesOf(Expected(CefLateFields(f)), name) ==
            if name == "suser" then ValueOf(f, "username")
            else if name == "cs3" then ValueOf(f, "decoy_tier")
            else if name == "cs3Label" then LabelOf(f, "decoy_tier", "DecoyTier")
            else []
  {
    assert "cs3" + "Label" == "cs3Label";
    hide Field, ValuesOf, ValueOf, Expected;
    FieldValues(f, "username", "suser", false, "", name);
    OneMoreField(Field(f, "username", "suser", false, ""), f, "decoy_tier", "cs3", true, "DecoyTier", name);
  }

  lemma CefFalcoValues(subject: string, f: map<string, string>, name: string)
    ensures ValuesOf(Expected(CefFalcoFields(subject, f)), name) ==
            if !Contains(subject, "falco") then []
            else if name == "cs4" then ValueOf(f, "rule")
            else if name == "cs4Label" then LabelOf(f, "rule", "FalcoRule")
            else if name == "msg" then ValueOf(f, "output")
            else []
  {
    assert "cs4" + "Label" == "cs4Label" && "cs4"[0] != "msg"[0];
    if Contains(subject, "falco") {
      hide Field, ValuesOf, ValueOf, Expected, Contains;
      FieldValues(f, "rule", "cs4", false, "FalcoRule", name);
      OneMoreField(Field(f, "rule", "cs4", false, "FalcoRule"), f, "output", "msg", false, "", name);
    }
  }

  lemma CefValues(subject: string, e: Event, name: string)
    ensures ValuesOf(Expected(CefExtensions(subject, e)), name) ==
            ValuesOf(Expected(CefEventFields(e.fields)), name) + ValuesOf(Expected(CefDataFields(e.data)), name)
            + ValuesOf(Expected(CefLateFields(e.fields)), name)
            + ValuesOf(Expected(CefFalcoFields(subject, e.fields)), name)
  {
    hide ValuesOf, Expected, CefEventFields, CefDataFields, CefLateFields, CefFalcoFields;
    var a, b, c := CefEventFields(e.fields), CefDataFields(e.data), CefLateFields(e.fields);
    var d := CefFalcoFields(subject, e.fields);
    ExpectedConcat(a, b);
    ExpectedConcat(a + b, c);
    ExpectedConcat(a + b + c, d);
    ValuesConcat(Expected(a), Expected(b), name);
    ValuesConcat(Expected(a + b), Expected(c), name);
    ValuesConcat(Expected(a + b + c), Expected(d), name);
  }

  /**
   What a CEF extension says under each name. The user name can stand there twice, from the nested
   data and from the event; what Falco adds stands there only for its subjects.
   */
  lemma CefFieldByField(subject: string, e: Event, name: string)
    ensures var f := e.fields;
            ValuesOf(Expected(CefExtensions(subject, e)), name) ==
            if name == "src" then ValueOf(f, "source_ip")
            else if name == "spt" then ValueOf(f, "source_port")
            else if name == "dhost" then ValueOf(f, "decoy_name")
            else if name == "proto" then ValueOf(f, "protocol")
            else if name == "externalId" then ValueOf(f, "session_id")
            else if name == "cs1" then ValueOf(f, "event_id")
            else if name == "cs1Label" then LabelOf(f, "event_id", "EventID")
            else if name == "rt" then ValueOf(f, "timestamp")
            else if name == "cs2" && e.data.Some? then ValueOf(e.data.value, "command")
            else if name == "cs2Label" && e.data.Some? then LabelOf(e.data.value, "command", "Command")
            else if name == "suser" then
              (if e.data.Some? then ValueOf(e.data.value, "username") else []) + ValueOf(f, "username")
            else if name == "cs3" then ValueOf(f, "decoy_tier")
            else if name == "cs3Label" then LabelOf(f, "decoy_tier", "DecoyTier")
            else if name == "cs4" && Contains(subject, "falco") then ValueOf(f, "rule")
            else if name == "cs4Label" && Contains(subject, "falco") then LabelOf(f, "rule", "FalcoRule")
            else if name == "msg" && Contains(subject, "falco") then ValueOf(f, "output")
            else []
  {
    hide ValuesOf, ValueOf, LabelOf, Expected, Contains, CefExtensions;
    CefValues(subject, e, name);
    CefEventValues(e.fields, name);
    CefDataValues(e.data, name);
    CefLateValues(e.fields, name);
    CefFalcoValues(subject, e.fields, name);
    CefNames();
  }

  /** The characters that tell the names apart, where their lengths do not. */
  lemma CefNames()
    ensures "src"[1] == 'r' && "spt"[1] == 'p' && "msg"[0] == 'm' && "cs1"[2] == '1' && "cs2"[2] == '2'
    ensures "cs3"[2] == '3' && "cs4"[2] == '4' && "cs1"[0] == "cs2"[0] == "cs3"[0] == "cs4"[0] == 'c'
    ensures "src"[0] == "spt"[0] == 's' && "dhost"[0] == 'd' && "proto"[0] == 'p' && "suser"[0] == 's'
    ensures "cs1Label"[2] == '1' && "cs2Label"[2] == '2' && "cs3Label"[2] == '3' && "cs4Label"[2] == '4'
  {
  }

  // ----- Event types -----

  /** An event type, its signature, and its severity and name where it has its own. */
  datatype Kind = Kind(eventType: string, signature: string, severity: Option<nat>, name: Option<string>)

  const KINDS: seq<Kind> :=
    [ Kind("connection.new", "CICD-1001", Some(3), Some("New Connection to Decoy")),
      Kind("connection.close", "CICD-1002", Some(1), Some("Connection Closed")),
      Kind("auth.attempt", "CICD-2001", Some(4), Some("Authentication Attempt")),
      Kind("auth.success", "CICD-2002", Some(6), Some("Authentication Success")),
      Kind("auth.failure", "CICD-2003", Some(3), Some("Authentication Failure")),
      Kind("command.exec", "CICD-3001", Some(5), Some("Command Executed in Decoy")),
      Kind("command.response", "CICD-3002", Some(2), Some("Command Response")),
      Kind("file.upload", "CICD-4001", Some(7), Some("File Upload to Decoy")),
      Kind("file.download", "CICD-4002", Some(5), Some("File Download from Decoy")),
      Kind("session.start", "CICD-5001", Some(5), Some("Interactive Session Started")),
      Kind("session.end", "CICD-5002", Some(2), Some("Session Ended")),
      Kind("honeytoken.trigger", "CICD-6001", None, Some("Honeytoken Triggered")),
      Kind("falco.alert", "CICD-7001", None, None) ]

  /** Every event type of the table has the signature, severity and name of its row. */
  lemma KnownTypes(i: nat, subject: string)
    requires i < |KINDS|
    ensures var k := KINDS[i];
            && Signature(k.eventType) == k.signature
            && EventName(k.eventType) == (if k.name.Some? then k.name.value else "CICDecoy Event: " + k.eventType)
            && Severity(k.eventType, subject) ==
               if Contains(subject, "falco") then 8 else if Contains(subject, "honeytoken") then 9
               else if k.severity.Some? then k.severity.value else 3
  {
    hide Contains;
  }

  /** Any other event type has the signature and the severity of unknown types, and its name is printed. */
  lemma OtherTypes(t: string, subject: string)
    requires forall i :: 0 <= i < |KINDS| ==> KINDS[i].eventType != t
    ensures Signature(t) == "CICD-9999" && EventName(t) == "CICDecoy Event: " + t
    ensures Severity(t, subject) ==
            if Contains(subject, "falco") then 8 else if Contains(subject, "honeytoken") then 9 else 3
  {
    hide Contains;
    assert KINDS[0].eventType != t && KINDS[1].eventType != t && KINDS[2].eventType != t && KINDS[3].eventType != t;
    assert KINDS[4].eventType != t && KINDS[5].eventType != t && KINDS[6].eventType != t && KINDS[7].eventType != t;
    assert KINDS[8].eventType != t && KINDS[9].eventType != t && KINDS[10].eventType != t;
    assert KINDS[11].eventType != t && KINDS[12].eventType != t;
  }

  /** A digit is printed as it is. */
  lemma DigitExactly(n: nat)
    requires n < 10
    ensures Digit(n) == [('0' as int + n) as char]
  {
  }
}
