/** The CEF and LEEF records of the forwarder, and readers that take them apart again. */
module Records {
  import opened Options
  import opened Escaping
  import opened Text

  /** An event with its values printed, and the nested data when that is a map. */
  datatype Event = Event(fields: map<string, string>, data: Option<map<string, string>>)

  datatype Attribute = Attribute(name: string, value: string)

  function GetString(m: map<string, string>, key: string): string {
    if key in m then m[key] else ""
  }

  /** The signature of an event type; nothing in it needs an escape. */
  function Signature(eventType: string): (r: string)
    ensures forall c :: c in r ==> c == '-' || 'A' <= c <= 'Z' || '0' <= c <= '9'
  {
    if eventType == "connection.new" then "CICD-1001"
    else if eventType == "connection.close" then "CICD-1002"
    else if eventType == "auth.attempt" then "CICD-2001"
    else if eventType == "auth.success" then "CICD-2002"
    else if eventType == "auth.failure" then "CICD-2003"
    else if eventType == "command.exec" then "CICD-3001"
    else if eventType == "command.response" then "CICD-3002"
    else if eventType == "file.upload" then "CICD-4001"
    else if eventType == "file.download" then "CICD-4002"
    else if eventType == "session.start" then "CICD-5001"
    else if eventType == "session.end" then "CICD-5002"
    else if eventType == "honeytoken.trigger" then "CICD-6001"
    else if eventType == "falco.alert" then "CICD-7001"
    else "CICD-9999"
  }

  function EventName(eventType: string): string {
    if eventType == "connection.new" then "New Connection to Decoy"
    else if eventType == "connection.close" then "Connection Closed"
    else if eventType == "auth.attempt" then "Authentication Attempt"
    else if eventType == "auth.success" then "Authentication Success"
    else if eventType == "auth.failure" then "Authentication Failure"
    else if eventType == "command.exec" then "Command Executed in Decoy"
    else if eventType == "command.response" then "Command Response"
    else if eventType == "file.upload" then "File Upload to Decoy"
    else if eventType == "file.download" then "File Download from Decoy"
    else if eventType == "session.start" then "Interactive Session Started"
    else if eventType == "session.end" then "Session Ended"
    else if eventType == "honeytoken.trigger" then "Honeytoken Triggered"
    else "CICDecoy Event: " + eventType
  }

  /** The baseline severity, one digit on the 0 to 10 scale of CEF. */
  function Severity(eventType: string, subject: string): (r: nat)
    ensures 1 <= r <= 9
  {
    if Contains(subject, "falco") then 8
    else if Contains(subject, "honeytoken") then 9
    else if eventType == "connection.new" then 3
    else if eventType == "connection.close" then 1
    else if eventType == "auth.attempt" then 4
    else if eventType == "auth.success" then 6
    else if eventType == "auth.failure" then 3
    else if eventType == "command.exec" then 5
    else if eventType == "command.response" then 2
    else if eventType == "file.upload" then 7
    else if eventType == "file.download" then 5
    else if eventType == "session.start" then 5
    else if eventType == "session.end" then 2
    else 3
  }

  function Digit(n: nat): (r: string)
    requires n < 10
    ensures |r| == 1 && '0' <= r[0] <= '9'
  {
    ["0123456789"[n]]
  }

  // ----- Readers -----

  /** The text before the first occurrence of sep, and the text after it. */
  function Cut(s: string, sep: char): (string, string) {
    if s == "" then ("", "")
    else if s[0] == sep then ("", s[1..])
    else var (before, after) := Cut(s[1..], sep); ([s[0]] + before, after)
  }

  lemma {:induction false} CutFirst(piece: string, rest: string, sep: char)
    requires sep !in piece
    ensures Cut(piece + [sep] + rest, sep) == (piece, rest)
  {
    var s := piece + [sep] + rest;
    if piece == "" {
      assert s[1..] == rest;
    } else {
      CutFirst(piece[1..], rest, sep);
      assert s[1..] == piece[1..] + [sep] + rest;
      assert s[0] == piece[0] != sep && [piece[0]] + piece[1..] == piece;
    }
  }

  /** The text after the first n occurrences of sep. */
  function Skip(s: string, sep: char, n: nat): string
    decreases n
  {
    if n == 0 then s else Skip(Cut(s, sep).1, sep, n - 1)
  }

  lemma SkipFirst(s: string, piece: string, rest: string, sep: char, n: nat)
    requires sep !in piece && s == piece + [sep] + rest
    ensures Skip(s, sep, n + 1) == Skip(rest, sep, n)
  {
    CutFirst(piece, rest, sep);
  }

  function ParseAttribute(s: string): Attribute {
    var (name, value) := Cut(s, '=');
    Attribute(name, Unescape(Leef, value))
  }

  function ParseAttributes(parts: seq<string>): (r: seq<Attribute>)
    ensures |r| == |parts|
    ensures forall i :: 0 <= i < |parts| ==> r[i] == ParseAttribute(parts[i])
  {
    seq(|parts|, i requires 0 <= i < |parts| => ParseAttribute(parts[i]))
  }

  /** Reads a LEEF record: the event id is the fifth header field, the attributes follow a tab. */
  function ParseLeef(s: string): (string, seq<Attribute>) {
    var eventId := Cut(Skip(s, '|', 4), '|').0;
    var rest := Skip(s, '|', 5);
    (eventId, if rest == "" then [] else ParseAttributes(Split(rest[1..], '\t')))
  }

  /** The fields of a CEF header: pieces between the first n pipes that no backslash precedes, and the rest. */
  function SplitUnescaped(s: string, n: nat): (r: seq<string>)
    ensures r != []
    decreases |s|
  {
    if n == 0 || s == "" then [s]
    else if s[0] == '\\' && |s| > 1 then
      var r := SplitUnescaped(s[2..], n);
      [s[..2] + r[0]] + r[1..]
    else if s[0] == '|' then [""] + SplitUnescaped(s[1..], n - 1)
    else
      var r := SplitUnescaped(s[1..], n);
      [s[..1] + r[0]] + r[1..]
  }

  // ----- LEEF -----

  function Present(m: map<string, string>, key: string, name: string): seq<Attribute> {
    if GetString(m, key) == "" then [] else [Attribute(name, GetString(m, key))]
  }

  function LeefFieldAttributes(f: map<string, string>): seq<Attribute> {
    Present(f, "source_ip", "src") + Present(f, "source_port", "srcPort") + Present(f, "decoy_name", "dstName")
    + Present(f, "protocol", "proto") + Present(f, "session_id", "sessionID") + Present(f, "timestamp", "devTime")
    + Present(f, "username", "usrName")
  }

  /** What a LEEF record has to say about an event. */
  function LeefAttributes(subject: string, e: Event): seq<Attribute> {
    LeefFieldAttributes(e.fields)
    + (if e.data.Some? then Present(e.data.value, "command", "command") else [])
    + [Attribute("sev", Digit(Severity(GetString(e.fields, "event_type"), subject)))]
  }

  function PrintAttribute(a: Attribute): string {
    a.name + "=" + LeefEscape(a.value)
  }

  function PrintAttributes(attributes: seq<Attribute>): (r: seq<string>)
    ensures |r| == |attributes|
    ensures forall i :: 0 <= i < |r| ==> r[i] == PrintAttribute(attributes[i])
  {
    seq(|attributes|, i requires 0 <= i < |attributes| => PrintAttribute(attributes[i]))
  }

  predicate Readable(attributes: seq<Attribute>) {
    forall i :: 0 <= i < |attributes| ==> '=' !in attributes[i].name && '\t' !in attributes[i].name
  }

  /** Appends an attribute if the event has a value for it. */
  method AppendPresent(kvs: seq<string>, m: map<string, string>, key: string, name: string, ghost so: seq<Attribute>)
    returns (longer: seq<string>)
    requires kvs == PrintAttributes(so) && Readable(so) && '=' !in name && '\t' !in name
    ensures longer == PrintAttributes(so + Present(m, key, name)) && Readable(so + Present(m, key, name))
  {
    longer := kvs;
    var v := GetString(m, key);
    if v != "" {
      longer := longer + [name + "=" + LeefEscape(v)];
    } else {
      assert so + Present(m, key, name) == so;
    }
  }

  lemma ReadAttribute(a: Attribute)
    requires '=' !in a.name && '\t' !in a.name
    ensures ParseAttribute(PrintAttribute(a)) == a && '\t' !in PrintAttribute(a)
  {
    CutFirst(a.name, LeefEscape(a.value), '=');
    RoundTrip(Leef, a.value);
    EscapeRemoves(Leef, a.value, '\t');
  }

  lemma ReadLeef(header: string, eventId: string, attributes: seq<Attribute>)
    requires header == "LEEF:2.0|CICDecoy|SIEMForwarder|1.0|" && '|' !in eventId
    requires Readable(attributes) && attributes != []
    ensures ParseLeef(header + eventId + "|\t" + Join(PrintAttributes(attributes), '\t')) == (eventId, attributes)
  {
    var body := "\t" + Join(PrintAttributes(attributes), '\t');
    var s := header + eventId + "|\t" + Join(PrintAttributes(attributes), '\t');
    assert s == header + (eventId + "|" + body);
    ReadHeader(s, eventId, body);
    forall i | 0 <= i < |attributes|
      ensures ParseAttribute(PrintAttribute(attributes[i])) == attributes[i]
      ensures '\t' !in PrintAttribute(attributes[i])
    {
      ReadAttribute(attributes[i]);
    }
    SplitJoin(PrintAttributes(attributes), '\t');
    assert body[1..] == Join(PrintAttributes(attributes), '\t');
    assert ParseAttributes(PrintAttributes(attributes)) == attributes;
  }

  lemma SkipTwo(s: string, first: string, second: string, rest: string, n: nat)
    requires '|' !in first && '|' !in second && s == first + "|" + (second + "|" + rest)
    ensures Skip(s, '|', n + 2) == Skip(rest, '|', n)
  {
    hide Skip;
    SkipFirst(s, first, second + "|" + rest, '|', n + 1);
    SkipFirst(second + "|" + rest, second, rest, '|', n);
  }

  lemma SkipHeader(s: string, rest: string, n: nat)
    requires s == "LEEF:2.0|CICDecoy|SIEMForwarder|1.0|" + rest
    ensures Skip(s, '|', n + 4) == Skip(rest, '|', n)
  {
    hide Skip;
    var middle := "SIEMForwarder" + "|" + ("1.0" + "|" + rest);
    SkipTwo(s, "LEEF:2.0", "CICDecoy", middle, n + 2);
    SkipTwo(middle, "SIEMForwarder", "1.0", rest, n);
  }

  lemma ReadHeader(s: string, eventId: string, body: string)
    requires s == "LEEF:2.0|CICDecoy|SIEMForwarder|1.0|" + (eventId + "|" + body) && '|' !in eventId
    ensures Cut(Skip(s, '|', 4), '|').0 == eventId && Skip(s, '|', 5) == body
  {
    var rest := eventId + "|" + body;
    SkipHeader(s, rest, 0);
    SkipHeader(s, rest, 1);
    SkipFirst(rest, eventId, body, '|', 0);
    CutFirst(eventId, body, '|');
  }

  method LeefFields(f: map<string, string>) returns (kvs: seq<string>)
    ensures kvs == PrintAttributes(LeefFieldAttributes(f)) && Readable(LeefFieldAttributes(f))
  {
    hide PrintAttributes, Present, Readable;
    kvs := [];
    ghost var so := [];
    NoAttributes();
    kvs := AppendPresent(kvs, f, "source_ip", "src", so);
    assert [] + Present(f, "source_ip", "src") == Present(f, "source_ip", "src");
    so := Present(f, "source_ip", "src");
    kvs := AppendPresent(kvs, f, "source_port", "srcPort", so);
    so := so + Present(f, "source_port", "srcPort");
    kvs := AppendPresent(kvs, f, "decoy_name", "dstName", so);
    so := so + Present(f, "decoy_name", "dstName");
    kvs := AppendPresent(kvs, f, "protocol", "proto", so);
    so := so + Present(f, "protocol", "proto");
    kvs := AppendPresent(kvs, f, "session_id", "sessionID", so);
    so := so + Present(f, "session_id", "sessionID");
    kvs := AppendPresent(kvs, f, "timestamp", "devTime", so);
    so := so + Present(f, "timestamp", "devTime");
    kvs := AppendPresent(kvs, f, "username", "usrName", so);
  }

  lemma NoAttributes()
    ensures PrintAttributes([]) == [] && Readable([])
  {
  }

  /** Prints an event as a LEEF record, from which the signature and exactly the event's attributes can be read back. */
  method FormatLeef(subject: string, e: Event) returns (leef: string)
    ensures ParseLeef(leef) == (Signature(GetString(e.fields, "event_type")), LeefAttributes(subject, e))
  {
    hide Signature, Severity, PrintAttributes, Split, Join, ParseLeef, LeefEscape, Present, Readable,
      LeefFieldAttributes;
    var eventId := Signature(GetString(e.fields, "event_type"));
    var kvs := LeefFields(e.fields);
    ghost var so := LeefFieldAttributes(e.fields);
    if e.data.Some? {
      kvs := AppendPresent(kvs, e.data.value, "command", "command", so);
      so := so + Present(e.data.value, "command", "command");
    }
    var sev := Digit(Severity(GetString(e.fields, "event_type"), subject));
    EscapeOne(Leef, sev[0]);
    kvs := AppendPlain(kvs, "sev", sev, so);
    so := so + [Attribute("sev", sev)];
    assert so == LeefAttributes(subject, e);
    leef := "LEEF:2.0|CICDecoy|SIEMForwarder|1.0|" + eventId + "|\t" + Join(kvs, '\t');
    ReadLeef("LEEF:2.0|CICDecoy|SIEMForwarder|1.0|", eventId, so);
  }

  /** Appends a value that holds nothing to escape. */
  method AppendPlain(kvs: seq<string>, name: string, v: string, ghost so: seq<Attribute>)
    returns (longer: seq<string>)
    requires kvs == PrintAttributes(so) && Readable(so) && '=' !in name && '\t' !in name
    requires LeefEscape(v) == v
    ensures longer == PrintAttributes(so + [Attribute(name, v)]) && Readable(so + [Attribute(name, v)])
  {
    longer := kvs + [name + "=" + v];
  }

  // ----- CEF -----

  /** A piece of the extension; some values are printed without an escape. */
  datatype Extension = Extension(name: string, value: string, raw: bool)

  function PrintExtension(x: Extension): string {
    x.name + "=" + (if x.raw then x.value else CefEscape(x.value))
  }

  function PrintExtensions(xs: seq<Extension>): (r: seq<string>)
    ensures |r| == |xs| && forall i :: 0 <= i < |r| ==> r[i] == PrintExtension(xs[i])
  {
    seq(|xs|, i requires 0 <= i < |xs| => PrintExtension(xs[i]))
  }

  /** A value, with a label if it goes to a custom field. */
  function Field(m: map<string, string>, key: string, name: string, raw: bool, tag: string): seq<Extension> {
    if GetString(m, key) == "" then
      []
    else
      [Extension(name, GetString(m, key), raw)]
      + (if tag == "" then [] else [Extension(name + "Label", tag, true)])
  }

  function CefEventFields(f: map<string, string>): seq<Extension> {
    Field(f, "source_ip", "src", false, "") + Field(f, "source_port", "spt", true, "")
    + Field(f, "decoy_name", "dhost", false, "") + Field(f, "protocol", "proto", false, "")
    + Field(f, "session_id", "externalId", false, "") + Field(f, "event_id", "cs1", false, "EventID")
    + Field(f, "timestamp", "rt", false, "")
  }

  function CefDataFields(data: Option<map<string, string>>): seq<Extension> {
    if data.None? then []
    else Field(data.value, "command", "cs2", false, "Command") + Field(data.value, "username", "suser", false, "")
  }

  function CefLateFields(f: map<string, string>): seq<Extension> {
    Field(f, "username", "suser", false, "") + Field(f, "decoy_tier", "cs3", true, "DecoyTier")
  }

  function CefFalcoFields(subject: string, f: map<string, string>): seq<Extension> {
    if !Contains(subject, "falco") then []
    else Field(f, "rule", "cs4", false, "FalcoRule") + Field(f, "output", "msg", false, "")
  }

  /** What the extension of a CEF record has to say about an event. */
  function CefExtensions(subject: string, e: Event): seq<Extension> {
    CefEventFields(e.fields) + CefDataFields(e.data) + CefLateFields(e.fields) + CefFalcoFields(subject, e.fields)
  }

  method AppendField(ext: seq<string>, m: map<string, string>, key: string, name: string, raw: bool, tag: string,
                     ghost so: seq<Extension>)
    returns (longer: seq<string>)
    requires ext == PrintExtensions(so)
    ensures longer == PrintExtensions(so + Field(m, key, name, raw, tag))
  {
    longer := ext;
    var v := GetString(m, key);
    if v != "" {
      longer := longer + [name + "=" + (if raw then v else CefEscape(v))];
      if tag != "" {
        longer := longer + [name + "Label=" + tag];
        assert name + "Label=" + tag == name + "Label" + "=" + tag;
      }
    } else {
      assert so + Field(m, key, name, raw, tag) == so;
    }
  }

  method AppendEventFields(f: map<string, string>) returns (ext: seq<string>)
    ensures ext == PrintExtensions(CefEventFields(f))
  {
    hide PrintExtensions, Field;
    NoExtensions();
    ext := [];
    ghost var so := Field(f, "source_ip", "src", false, "");
    assert [] + so == so;
    ext := AppendField(ext, f, "source_ip", "src", false, "", []);
    ext := AppendField(ext, f, "source_port", "spt", true, "", so);
    so := so + Field(f, "source_port", "spt", true, "");
    ext := AppendField(ext, f, "decoy_name", "dhost", false, "", so);
    so := so + Field(f, "decoy_name", "dhost", false, "");
    ext := AppendField(ext, f, "protocol", "proto", false, "", so);
    so := so + Field(f, "protocol", "proto", false, "");
    ext := AppendField(ext, f, "session_id", "externalId", false, "", so);
    so := so + Field(f, "session_id", "externalId", false, "");
    ext := AppendField(ext, f, "event_id", "cs1", false, "EventID", so);
    so := so + Field(f, "event_id", "cs1", false, "EventID");
    ext := AppendField(ext, f, "timestamp", "rt", false, "", so);
  }

  lemma NoExtensions()
    ensures PrintExtensions([]) == []
  {
  }

  method AppendDataFields(ext: seq<string>, data: Option<map<string, string>>, ghost so: seq<Extension>)
    returns (longer: seq<string>)
    requires ext == PrintExtensions(so)
    ensures longer == PrintExtensions(so + CefDataFields(data))
  {
    hide PrintExtensions, Field;
    longer := ext;
    if data.Some? {
      ghost var command := Field(data.value, "command", "cs2", false, "Command");
      longer := AppendField(longer, data.value, "command", "cs2", false, "Command", so);
      longer := AppendField(longer, data.value, "username", "suser", false, "", so + command);
      assert so + CefDataFields(data) == so + command + Field(data.value, "username", "suser", false, "");
    } else {
      assert so + CefDataFields(data) == so;
    }
  }

  method AppendFalcoFields(ext: seq<string>, subject: string, f: map<string, string>, ghost so: seq<Extension>)
    returns (longer: seq<string>)
    requires ext == PrintExtensions(so)
    ensures longer == PrintExtensions(so + CefFalcoFields(subject, f))
  {
    hide PrintExtensions, Field, Contains;
    longer := ext;
    if Contains(subject, "falco") {
      ghost var rule := Field(f, "rule", "cs4", false, "FalcoRule");
      longer := AppendField(longer, f, "rule", "cs4", false, "FalcoRule", so);
      longer := AppendField(longer, f, "output", "msg", false, "", so + rule);
      assert so + CefFalcoFields(subject, f) == so + rule + Field(f, "output", "msg", false, "");
    } else {
      assert so + CefFalcoFields(subject, f) == so;
    }
  }

  method AppendExtensions(subject: string, e: Event) returns (ext: seq<string>)
    ensures ext == PrintExtensions(CefExtensions(subject, e))
  {
    hide PrintExtensions, Field, CefEventFields, CefDataFields, CefFalcoFields;
    var f := e.fields;
    ext := AppendEventFields(f);
    ghost var so := CefEventFields(f);
    ext := AppendDataFields(ext, e.data, so);
    so := so + CefDataFields(e.data);
    ghost var user := Field(f, "username", "suser", false, "");
    ext := AppendField(ext, f, "username", "suser", false, "", so);
    ext := AppendField(ext, f, "decoy_tier", "cs3", true, "DecoyTier", so + user);
    assert so + CefLateFields(f) == so + user + Field(f, "decoy_tier", "cs3", true, "DecoyTier");
    ext := AppendFalcoFields(ext, subject, f, so + CefLateFields(f));
  }

  lemma {:induction false} SplitPiece(x: string, rest: string, n: nat)
    ensures SplitUnescaped(OnePass(Cef, x) + "|" + rest, n + 1) == [OnePass(Cef, x)] + SplitUnescaped(rest, n)
  {
    var s := OnePass(Cef, x) + "|" + rest;
    if x == "" {
      assert s[1..] == rest;
    } else {
      SplitPiece(x[1..], rest, n);
      var tail := OnePass(Cef, x[1..]) + "|" + rest;
      var c := EscapeChar(Cef, x[0]);
      assert s == c + tail;
      assert s[|c|..] == tail && s[..|c|] == c;
      assert OnePass(Cef, x) == c + OnePass(Cef, x[1..]);
    }
  }

  lemma {:induction false} PlainPiece(x: string)
    requires forall c :: c in x ==> Letter(Cef, c).None?
    ensures OnePass(Cef, x) == x
  {
    if x != "" {
      PlainPiece(x[1..]);
      assert x == [x[0]] + x[1..];
    }
  }

  lemma SplitPlain(s: string, x: string, rest: string, n: nat)
    requires s == x + "|" + rest && forall c :: c in x ==> Letter(Cef, c).None?
    ensures SplitUnescaped(s, n + 1) == [x] + SplitUnescaped(rest, n)
  {
    PlainPiece(x);
    SplitPiece(x, rest, n);
  }

  /** The first four fields of every record. */
  lemma SplitCefHeader(s: string, rest: string)
    requires s == "CEF:0|CICDecoy|SIEMForwarder|1.0|" + rest
    ensures SplitUnescaped(s, 7) == ["CEF:0", "CICDecoy", "SIEMForwarder", "1.0"] + SplitUnescaped(rest, 3)
  {
    hide SplitUnescaped;
    var s3 := "1.0|" + rest;
    var s2 := "SIEMForwarder|" + s3;
    var s1 := "CICDecoy|" + s2;
    SplitPlain(s, "CEF:0", s1, 6);
    SplitPlain(s1, "CICDecoy", s2, 5);
    SplitPlain(s2, "SIEMForwarder", s3, 4);
    SplitPlain(s3, "1.0", rest, 3);
  }

  /** The last four fields: whatever the name holds, it does not end early. */
  lemma SplitCefRest(sig: string, name: string, sev: string, ext: string)
    requires |sev| == 1 && '0' <= sev[0] <= '9'
    ensures SplitUnescaped(CefEscape(sig) + "|" + CefEscape(name) + "|" + sev + "|" + ext, 3) ==
            [CefEscape(sig), CefEscape(name), sev, ext]
  {
    hide SplitUnescaped;
    EscapeIsOnePass(Cef, sig);
    EscapeIsOnePass(Cef, name);
    var r2 := sev + "|" + ext;
    var r1 := CefEscape(name) + "|" + r2;
    assert CefEscape(sig) + "|" + CefEscape(name) + "|" + sev + "|" + ext == CefEscape(sig) + "|" + r1;
    SplitPiece(sig, r1, 2);
    SplitPiece(name, r2, 1);
    SplitPlain(r2, sev, ext, 0);
    SplitNone(ext);
  }

  lemma SplitNone(s: string)
    ensures SplitUnescaped(s, 0) == [s]
  {
  }

  function CefRecord(subject: string, e: Event): string {
    var eventType := GetString(e.fields, "event_type");
    "CEF:0|CICDecoy|SIEMForwarder|1.0|"
    + (CefEscape(Signature(eventType)) + "|" + CefEscape(EventName(eventType)) + "|"
       + Digit(Severity(eventType, subject)) + "|" + Join(PrintExtensions(CefExtensions(subject, e)), ' '))
  }

  /** Prints an event as a CEF record. */
  method FormatCef(subject: string, e: Event) returns (cef: string)
    ensures cef == CefRecord(subject, e)
  {
    var eventType := GetString(e.fields, "event_type");
    var severity := Severity(eventType, subject);
    var signatureId := Signature(eventType);
    var name := EventName(eventType);
    var ext := AppendExtensions(subject, e);
    cef := "CEF:0|CICDecoy|SIEMForwarder|1.0|"
    + (CefEscape(signatureId) + "|" + CefEscape(name) + "|" + Digit(severity) + "|" + Join(ext, ' '));
  }

  /**
   A reader that splits a CEF record at its first seven unescaped pipes and unescapes the
   fields finds the signature, the name and the severity, whatever the event type holds.
   */
  lemma ReadCef(subject: string, e: Event)
    ensures var parts := SplitUnescaped(CefRecord(subject, e), 7);
            var eventType := GetString(e.fields, "event_type");
            && |parts| == 8 && parts[..4] == ["CEF:0", "CICDecoy", "SIEMForwarder", "1.0"]
            && Unescape(Cef, parts[4]) == Signature(eventType)
            && Unescape(Cef, parts[5]) == EventName(eventType)
            && parts[6] == Digit(Severity(eventType, subject))
            && parts[7] == Join(PrintExtensions(CefExtensions(subject, e)), ' ')
  {
    hide SplitUnescaped, Signature, EventName, Severity, CefEscape, Unescape, Join, CefExtensions, PrintExtensions;
    var eventType := GetString(e.fields, "event_type");
    var sig, name, sev := Signature(eventType), EventName(eventType), Digit(Severity(eventType, subject));
    var ext := Join(PrintExtensions(CefExtensions(subject, e)), ' ');
    SplitCefRest(sig, name, sev, ext);
    SplitCefHeader(CefRecord(subject, e), CefEscape(sig) + "|" + CefEscape(name) + "|" + sev + "|" + ext);
    RoundTrip(Cef, sig);
    RoundTrip(Cef, name);
  }

  // ----- One record, one line -----

  predicate LineEnd(c: char) {
    c == '\n' || c == '\r'
  }

  ghost predicate Holds(xs: seq<Extension>, c: char) {
    exists i :: 0 <= i < |xs| && c in PrintExtension(xs[i])
  }

  lemma HoldsConcat(a: seq<Extension>, b: seq<Extension>, c: char)
    ensures Holds(a + b, c) <==> Holds(a, c) || Holds(b, c)
  {
    if i :| 0 <= i < |a| && c in PrintExtension(a[i]) {
      assert (a + b)[i] == a[i];
    }
    if i :| 0 <= i < |b| && c in PrintExtension(b[i]) {
      assert (a + b)[|a| + i] == b[i];
    }
  }

  lemma HoldsField(m: map<string, string>, key: string, name: string, raw: bool, tag: string, c: char)
    requires LineEnd(c) && c !in name && c !in tag
    ensures Holds(Field(m, key, name, raw, tag), c) <==> raw && c in GetString(m, key)
  {
    var v := GetString(m, key);
    EscapeRemoves(Cef, v, c);
    var xs := Field(m, key, name, raw, tag);
    if v != "" {
      assert c in PrintExtension(xs[0]) <==> raw && c in v;
      assert tag != "" ==> c !in PrintExtension(xs[1]);
    }
  }

  lemma HoldsEventFields(f: map<string, string>, c: char)
    requires LineEnd(c)
    ensures Holds(CefEventFields(f), c) <==> c in GetString(f, "source_port")
  {
    hide Holds, Field, PrintExtension;
    var a1, a2 := Field(f, "source_ip", "src", false, ""), Field(f, "source_port", "spt", true, "");
    var a3, a4 := Field(f, "decoy_name", "dhost", false, ""), Field(f, "protocol", "proto", false, "");
    var a5, a6 := Field(f, "session_id", "externalId", false, ""), Field(f, "event_id", "cs1", false, "EventID");
    var a7 := Field(f, "timestamp", "rt", false, "");
    HoldsField(f, "source_ip", "src", false, "", c);
    HoldsField(f, "source_port", "spt", true, "", c);
    HoldsField(f, "decoy_name", "dhost", false, "", c);
    HoldsField(f, "protocol", "proto", false, "", c);
    HoldsField(f, "session_id", "externalId", false, "", c);
    HoldsField(f, "event_id", "cs1", false, "EventID", c);
    HoldsField(f, "timestamp", "rt", false, "", c);
    HoldsConcat(a1, a2, c);
    HoldsConcat(a1 + a2, a3, c);
    HoldsConcat(a1 + a2 + a3, a4, c);
    HoldsConcat(a1 + a2 + a3 + a4, a5, c);
    HoldsConcat(a1 + a2 + a3 + a4 + a5, a6, c);
    HoldsConcat(a1 + a2 + a3 + a4 + a5 + a6, a7, c);
  }

  lemma HoldsOtherFields(subject: string, e: Event, c: char)
    requires LineEnd(c)
    ensures !Holds(CefDataFields(e.data), c) && !Holds(CefFalcoFields(subject, e.fields), c)
    ensures Holds(CefLateFields(e.fields), c) <==> c in GetString(e.fields, "decoy_tier")
  {
    hide Field, PrintExtension, Contains;
    var f := e.fields;
    if e.data.Some? {
      HoldsField(e.data.value, "command", "cs2", false, "Command", c);
      HoldsField(e.data.value, "username", "suser", false, "", c);
      HoldsConcat(Field(e.data.value, "command", "cs2", false, "Command"),
                  Field(e.data.value, "username", "suser", false, ""), c);
    }
    HoldsField(f, "username", "suser", false, "", c);
    HoldsField(f, "decoy_tier", "cs3", true, "DecoyTier", c);
    HoldsConcat(Field(f, "username", "suser", false, ""), Field(f, "decoy_tier", "cs3", true, "DecoyTier"), c);
    HoldsField(f, "rule", "cs4", false, "FalcoRule", c);
    HoldsField(f, "output", "msg", false, "", c);
    HoldsConcat(Field(f, "rule", "cs4", false, "FalcoRule"), Field(f, "output", "msg", false, ""), c);
  }

  lemma {:induction false} JoinHolds(xs: seq<Extension>, c: char)
    requires LineEnd(c)
    ensures c in Join(PrintExtensions(xs), ' ') <==> Holds(xs, c)
  {
    if |xs| == 1 {
      assert Holds(xs, c) <==> c in PrintExtension(xs[0]);
    } else if |xs| > 1 {
      JoinHolds(xs[1..], c);
      HoldsConcat(xs[..1], xs[1..], c);
      assert xs == xs[..1] + xs[1..];
      assert Holds(xs[..1], c) <==> c in PrintExtension(xs[0]);
      assert PrintExtensions(xs)[1..] == PrintExtensions(xs[1..]);
    }
  }

  lemma HoldsExtensions(subject: string, e: Event, c: char)
    requires LineEnd(c)
    ensures Holds(CefExtensions(subject, e), c) <==>
            c in GetString(e.fields, "source_port") || c in GetString(e.fields, "decoy_tier")
  {
    hide Holds, CefEventFields, CefLateFields, CefDataFields, CefFalcoFields, GetString;
    var f := e.fields;
    HoldsEventFields(f, c);
    HoldsOtherFields(subject, e, c);
    HoldsConcat(CefEventFields(f), CefDataFields(e.data), c);
    HoldsConcat(CefEventFields(f) + CefDataFields(e.data), CefLateFields(f), c);
    HoldsConcat(CefEventFields(f) + CefDataFields(e.data) + CefLateFields(f), CefFalcoFields(subject, f), c);
  }

  lemma HeadHolds(sig: string, name: string, sev: string, ext: string, c: char)
    requires LineEnd(c) && c !in sig && c !in name && |sev| == 1 && '0' <= sev[0] <= '9'
    ensures c in "CEF:0|CICDecoy|SIEMForwarder|1.0|" + (sig + "|" + name + "|" + sev + "|" + ext) <==> c in ext
  {
    assert c !in "CEF:0|CICDecoy|SIEMForwarder|1.0|";
    assert c !in sig + "|" + name + "|" + sev + "|";
  }

  /**
   A CEF record stays on one line exactly when the source port and the decoy tier do: those
   two values are printed without an escape.
   */
  lemma CefOneLine(subject: string, e: Event, c: char)
    requires LineEnd(c)
    ensures c in CefRecord(subject, e) <==>
            c in GetString(e.fields, "source_port") || c in GetString(e.fields, "decoy_tier")
  {
    hide Holds, CefEscape, Join, EventName, CefExtensions, PrintExtensions, GetString, Signature, Severity;
    var eventType := GetString(e.fields, "event_type");
    EscapeRemoves(Cef, Signature(eventType), c);
    EscapeRemoves(Cef, EventName(eventType), c);
    HoldsExtensions(subject, e, c);
    JoinHolds(CefExtensions(subject, e), c);
    HeadHolds(CefEscape(Signature(eventType)), CefEscape(EventName(eventType)),
              Digit(Severity(eventType, subject)), Join(PrintExtensions(CefExtensions(subject, e)), ' '), c);
  }
}
