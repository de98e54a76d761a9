/**
 A reader of the extension of a CEF record: it splits at the equals signs that no backslash
 precedes, and takes the key of the next value from behind the last space.
 */
module CefReader {
  import Options
  import opened Escaping
  import opened Records
  import opened Text

  /** The pieces between unescaped equals signs. */
  function Pieces(s: string): (r: seq<string>)
    ensures r != []
    decreases |s|
  {
    if s == "" then [""]
    else if s[0] == '\\' && |s| > 1 then
      var r := Pieces(s[2..]);
      [s[..2] + r[0]] + r[1..]
    else if s[0] == '=' then [""] + Pieces(s[1..])
    else
      var r := Pieces(s[1..]);
      [s[..1] + r[0]] + r[1..]
  }

  /** The text before the last space, and the text after it. */
  function CutLast(s: string): (string, string) {
    if s == "" then ("", "")
    else if s[|s| - 1] == ' ' then (s[..|s| - 1], "")
    else var (before, after) := CutLast(s[..|s| - 1]); (before, after + [s[|s| - 1]])
  }

  /** The attributes whose first key is given, from the pieces after it. */
  function ReadFrom(key: string, pieces: seq<string>): (r: seq<Attribute>)
    ensures |r| == |pieces|
    decreases |pieces|
  {
    if pieces == [] then []
    else if |pieces| == 1 then [Attribute(key, Unescape(Cef, pieces[0]))]
    else
      var (value, next) := CutLast(pieces[0]);
      [Attribute(key, Unescape(Cef, value))] + ReadFrom(next, pieces[1..])
  }

  function ReadExtension(s: string): seq<Attribute> {
    ReadFrom(Pieces(s)[0], Pieces(s)[1..])
  }

  // ----- The pieces of a printed extension -----

  function Body(x: Extension): string {
    if x.raw then x.value else CefEscape(x.value)
  }

  predicate PlainName(name: string) {
    '=' !in name && '\\' !in name && ' ' !in name
  }

  ghost predicate PlainNames(xs: seq<Extension>) {
    forall i :: 0 <= i < |xs| ==> PlainName(xs[i].name)
  }

  /** The last piece of one text and the first of another become one. */
  function Merge(a: seq<string>, b: seq<string>): seq<string>
    requires a != [] && b != []
  {
    a[..|a| - 1] + [a[|a| - 1] + b[0]] + b[1..]
  }

  lemma {:induction false} PiecesName(name: string, rest: string)
    requires PlainName(name)
    ensures Pieces(name + "=" + rest) == [name] + Pieces(rest)
  {
    var s := name + "=" + rest;
    if name == "" {
      assert s[1..] == rest;
    } else {
      PiecesName(name[1..], rest);
      assert s[1..] == name[1..] + "=" + rest && s[0] == name[0];
      assert name == name[..1] + name[1..] && s[..1] == name[..1];
    }
  }

  lemma LoneBackslash(rest: string)
    ensures Pieces("\\" + " " + rest) == Merge(Pieces("\\"), Pieces(" " + rest))
  {
    var b, s := "\\", "\\" + " " + rest;
    assert s[2..] == rest && s[..2] == b + " ";
    assert b[1..] == "" && Pieces("") == [""] && b[..1] + [""][0] == b;
    assert Pieces(b) == [b];
    SpaceFirst(rest);
    assert b + " " + Pieces(rest)[0] == b + (" " + Pieces(rest)[0]);
  }

  /** A space starts no piece and ends none, even after a lone backslash. */
  lemma {:induction false} PiecesSpace(b: string, rest: string)
    ensures Pieces(b + " " + rest) == Merge(Pieces(b), Pieces(" " + rest))
    decreases |b|
  {
    hide Merge;
    var s := b + " " + rest;
    if b == "" {
      assert s == " " + rest;
      MergeEmpty(Pieces(s));
    } else if b[0] == '\\' && |b| > 1 {
      PiecesSpace(b[2..], rest);
      assert s[2..] == b[2..] + " " + rest && s[..2] == b[..2];
      MergeFirst(b[..2], Pieces(b[2..]), Pieces(" " + rest));
    } else if b[0] == '\\' {
      assert b == "\\";
      LoneBackslash(rest);
    } else if b[0] == '=' {
      PiecesSpace(b[1..], rest);
      assert s[1..] == b[1..] + " " + rest;
      MergeCons(Pieces(b[1..]), Pieces(" " + rest));
    } else {
      PiecesSpace(b[1..], rest);
      assert s[1..] == b[1..] + " " + rest && s[..1] == b[..1];
      MergeFirst(b[..1], Pieces(b[1..]), Pieces(" " + rest));
    }
  }

  lemma MergeFirst(head: string, a: seq<string>, b: seq<string>)
    requires a != [] && b != []
    ensures Merge([head + a[0]] + a[1..], b) ==
            var m := Merge(a, b); [head + m[0]] + m[1..]
  {
    if |a| == 1 {
      assert head + a[0] + b[0] == head + (a[0] + b[0]);
    }
  }

  lemma MergeEmpty(b: seq<string>)
    requires b != []
    ensures Merge([""], b) == b
  {
    assert "" + b[0] == b[0];
  }

  lemma MergeCons(a: seq<string>, b: seq<string>)
    requires a != [] && b != []
    ensures Merge([""] + a, b) == [""] + Merge(a, b)
  {
  }

  // ----- Reading back -----

  function Expected(xs: seq<Extension>): (r: seq<Attribute>)
    ensures |r| == |xs|
    ensures forall i :: 0 <= i < |xs| ==> r[i] == Attribute(xs[i].name, xs[i].value)
  {
    seq(|xs|, i requires 0 <= i < |xs| => Attribute(xs[i].name, xs[i].value))
  }

  /** The body is one piece, and unescaping it gives the value. */
  predicate Good(x: Extension) {
    |Pieces(Body(x))| == 1 && Unescape(Cef, Body(x)) == x.value
  }

  predicate AllGood(xs: seq<Extension>) {
    forall i :: 0 <= i < |xs| ==> Good(xs[i])
  }

  function Printed(xs: seq<Extension>): string {
    Join(PrintExtensions(xs), ' ')
  }

  lemma PrintedMore(xs: seq<Extension>)
    requires |xs| > 1
    ensures Printed(xs) == xs[0].name + "=" + (Body(xs[0]) + " " + Printed(xs[1..]))
  {
    assert PrintExtensions(xs)[1..] == PrintExtensions(xs[1..]);
    assert PrintExtensions(xs)[0] == xs[0].name + "=" + Body(xs[0]);
  }

  lemma PrintedOne(x: Extension)
    ensures Printed([x]) == x.name + "=" + Body(x)
  {
  }

  /** The pieces of a printed extension: its first name, and then the rest. */
  lemma PiecesPrinted(xs: seq<Extension>)
    requires PlainNames(xs) && xs != []
    ensures |xs| == 1 ==> Pieces(Printed(xs)) == [xs[0].name] + Pieces(Body(xs[0]))
    ensures |xs| > 1 ==>
              Pieces(Printed(xs)) ==
              [xs[0].name] + Merge(Pieces(Body(xs[0])), Pieces(" " + Printed(xs[1..])))
  {
    if |xs| == 1 {
      assert xs == [xs[0]];
      PrintedOne(xs[0]);
      PiecesName(xs[0].name, Body(xs[0]));
    } else {
      PrintedMore(xs);
      PiecesName(xs[0].name, Body(xs[0]) + " " + Printed(xs[1..]));
      PiecesSpace(Body(xs[0]), Printed(xs[1..]));
    }
  }

  lemma SpaceFirst(s: string)
    ensures Pieces(" " + s) == [" " + Pieces(s)[0]] + Pieces(s)[1..]
  {
    assert (" " + s)[1..] == s && (" " + s)[..1] == " ";
  }

  /** There are as many pieces after the first name as the bodies have. */
  lemma {:induction false} EnoughPieces(xs: seq<Extension>)
    requires PlainNames(xs) && xs != []
    ensures Pieces(Printed(xs))[0] == xs[0].name
    ensures |Pieces(Printed(xs))| > |xs|
    ensures |Pieces(Printed(xs))| == |xs| + 1 ==> forall i :: 0 <= i < |xs| ==> |Pieces(Body(xs[i]))| == 1
    decreases |xs|
  {
    hide Pieces, Printed, Body;
    PiecesPrinted(xs);
    if |xs| > 1 {
      EnoughPieces(xs[1..]);
      SpaceFirst(Printed(xs[1..]));
      assert |Pieces(Printed(xs))| == |Pieces(Body(xs[0]))| + |Pieces(Printed(xs[1..]))|;
      if |Pieces(Printed(xs))| == |xs| + 1 {
        forall i | 0 <= i < |xs|
          ensures |Pieces(Body(xs[i]))| == 1
        {
          assert i > 0 ==> xs[i] == xs[1..][i - 1];
        }
      }
    }
  }

  lemma {:induction false} CutLastName(value: string, name: string)
    requires ' ' !in name
    ensures CutLast(value + " " + name) == (value, name)
  {
    var s := value + " " + name;
    if name == "" {
      assert s[..|s| - 1] == value;
    } else {
      var n := |name| - 1;
      CutLastName(value, name[..n]);
      assert s[..|s| - 1] == value + " " + name[..n];
      assert name == name[..n] + [name[n]];
    }
  }

  lemma {:induction false} SinglePiece(s: string)
    ensures |Pieces(s)| == 1 ==> Pieces(s) == [s]
    decreases |s|
  {
    if s != "" {
      if s[0] == '\\' && |s| > 1 {
        SinglePiece(s[2..]);
        assert s == s[..2] + s[2..];
      } else if s[0] != '=' {
        SinglePiece(s[1..]);
        assert s == s[..1] + s[1..];
      }
    }
  }

  /** Where every body is one piece, each attribute is read from its own body. */
  lemma {:induction false} ReadBodies(xs: seq<Extension>)
    requires PlainNames(xs) && xs != []
    requires forall i :: 0 <= i < |xs| ==> |Pieces(Body(xs[i]))| == 1
    ensures |ReadExtension(Printed(xs))| == |xs|
    ensures forall i :: 0 <= i < |xs| ==>
              ReadExtension(Printed(xs))[i] == Attribute(xs[i].name, Unescape(Cef, Body(xs[i])))
    decreases |xs|
  {
    hide Pieces, Printed, Body, Unescape, CutLast;
    PiecesPrinted(xs);
    SinglePiece(Body(xs[0]));
    var p := Pieces(Printed(xs));
    if |xs| == 1 {
      assert p[1..] == [Body(xs[0])];
    } else {
      var rest := xs[1..];
      forall i | 0 <= i < |rest|
        ensures |Pieces(Body(rest[i]))| == 1
      {
        assert rest[i] == xs[i + 1];
      }
      ReadBodies(rest);
      var q := Pieces(Printed(rest));
      EnoughPieces(rest);
      SpaceFirst(Printed(rest));
      assert p == [xs[0].name, Body(xs[0]) + (" " + rest[0].name)] + q[1..];
      assert Body(xs[0]) + (" " + rest[0].name) == Body(xs[0]) + " " + rest[0].name;
      CutLastName(Body(xs[0]), rest[0].name);
      assert p[1..][1..] == q[1..] && |p[1..]| > 1;
      assert ReadExtension(Printed(xs)) ==
             [Attribute(xs[0].name, Unescape(Cef, Body(xs[0])))] + ReadExtension(Printed(rest));
    }
  }

  /** The reader returns the attributes that were printed exactly when each of them is good. */
  lemma ReadExactly(xs: seq<Extension>)
    requires PlainNames(xs)
    ensures ReadExtension(Printed(xs)) == Expected(xs) <==> AllGood(xs)
  {
    if xs == [] {
      assert Printed(xs) == "";
    } else {
      hide Pieces, Printed, Body, Unescape, ReadFrom;
      EnoughPieces(xs);
      if AllGood(xs) || ReadExtension(Printed(xs)) == Expected(xs) {
        ReadBodies(xs);
      }
    }
  }

  // ----- Which values are good -----

  /** No equals sign, and no backslash but at the very end. */
  predicate Clean(v: string) {
    '=' !in v && forall i :: 0 <= i < |v| - 1 ==> v[i] != '\\'
  }

  lemma {:induction false} EscapedOnePiece(v: string)
    ensures Pieces(OnePass(Cef, v)) == [OnePass(Cef, v)]
  {
    if v != "" {
      EscapedOnePiece(v[1..]);
      var c, rest := EscapeChar(Cef, v[0]), OnePass(Cef, v[1..]);
      assert (c + rest)[|c|..] == rest && (c + rest)[..|c|] == c;
    }
  }

  lemma EscapedGood(x: Extension)
    requires !x.raw
    ensures Good(x)
  {
    EscapeIsOnePass(Cef, x.value);
    EscapedOnePiece(x.value);
    RoundTrip(Cef, x.value);
  }

  lemma {:induction false} UnescapeShorter(v: string)
    ensures |Unescape(Cef, v)| <= |v|
    ensures |Unescape(Cef, v)| == |v| ==> forall i :: 0 <= i < |v| - 1 ==> v[i] != '\\'
    ensures (forall i :: 0 <= i < |v| - 1 ==> v[i] != '\\') ==> Unescape(Cef, v) == v
    decreases |v|
  {
    if v != "" {
      if v[0] == '\\' && |v| > 1 {
        UnescapeShorter(v[2..]);
      } else {
        UnescapeShorter(v[1..]);
        assert v == [v[0]] + v[1..];
      }
    }
  }

  /** Without a backslash before its end, a text is one piece exactly when it has no equals sign. */
  lemma {:induction false} RawPieces(v: string)
    requires forall i :: 0 <= i < |v| - 1 ==> v[i] != '\\'
    ensures |Pieces(v)| == 1 <==> '=' !in v
    decreases |v|
  {
    if v != "" {
      RawPieces(v[1..]);
      assert v == [v[0]] + v[1..];
    }
  }

  lemma RawGood(x: Extension)
    requires x.raw
    ensures Good(x) <==> Clean(x.value)
  {
    UnescapeShorter(x.value);
    if forall i :: 0 <= i < |x.value| - 1 ==> x.value[i] != '\\' {
      RawPieces(x.value);
    }
  }

  lemma GoodConcat(a: seq<Extension>, b: seq<Extension>)
    ensures AllGood(a + b) <==> AllGood(a) && AllGood(b)
    ensures PlainNames(a) && PlainNames(b) ==> PlainNames(a + b)
  {
    if AllGood(a + b) {
      assert forall i :: 0 <= i < |a| ==> a[i] == (a + b)[i];
      assert forall i :: 0 <= i < |b| ==> b[i] == (a + b)[|a| + i];
    }
  }

  lemma GoodField(m: map<string, string>, key: string, name: string, raw: bool, tag: string)
    requires PlainName(name) && Clean(tag)
    ensures AllGood(Field(m, key, name, raw, tag)) <==> raw ==> Clean(GetString(m, key))
    ensures PlainNames(Field(m, key, name, raw, tag))
  {
    hide Good;
    var v := GetString(m, key);
    var xs := Field(m, key, name, raw, tag);
    if v != "" {
      if raw {
        RawGood(xs[0]);
      } else {
        EscapedGood(xs[0]);
      }
      if tag != "" {
        RawGood(xs[1]);
        assert PlainName(name + "Label");
      }
    }
  }

  lemma GoodEventFields(f: map<string, string>)
    ensures AllGood(CefEventFields(f)) <==> Clean(GetString(f, "source_port"))
    ensures PlainNames(CefEventFields(f))
  {
    hide Good, Field, AllGood, PlainNames, Clean, GetString;
    NoTag();
    GoodField(f, "source_ip", "src", false, "");
    GoodField(f, "source_port", "spt", true, "");
    GoodField(f, "decoy_name", "dhost", false, "");
    GoodField(f, "protocol", "proto", false, "");
    GoodField(f, "session_id", "externalId", false, "");
    GoodField(f, "event_id", "cs1", false, "EventID");
    GoodField(f, "timestamp", "rt", false, "");
    var a1, a2 := Field(f, "source_ip", "src", false, ""), Field(f, "source_port", "spt", true, "");
    var a3, a4 := Field(f, "decoy_name", "dhost", false, ""), Field(f, "protocol", "proto", false, "");
    var a5, a6 := Field(f, "session_id", "externalId", false, ""), Field(f, "event_id", "cs1", false, "EventID");
    GoodConcat(a1, a2);
    GoodConcat(a1 + a2, a3);
    GoodConcat(a1 + a2 + a3, a4);
    GoodConcat(a1 + a2 + a3 + a4, a5);
    GoodConcat(a1 + a2 + a3 + a4 + a5, a6);
    GoodConcat(a1 + a2 + a3 + a4 + a5 + a6, Field(f, "timestamp", "rt", false, ""));
  }

  lemma NoTag()
    ensures Clean("") && Clean("EventID") && Clean("Command") && Clean("DecoyTier") && Clean("FalcoRule")
    ensures AllGood([]) && PlainNames([])
  {
  }

  lemma GoodLateFields(f: map<string, string>)
    ensures AllGood(CefLateFields(f)) <==> Clean(GetString(f, "decoy_tier"))
    ensures PlainNames(CefLateFields(f))
  {
    hide Good, Field, AllGood, PlainNames, Clean, GetString;
    NoTag();
    GoodField(f, "username", "suser", false, "");
    GoodField(f, "decoy_tier", "cs3", true, "DecoyTier");
    GoodConcat(Field(f, "username", "suser", false, ""), Field(f, "decoy_tier", "cs3", true, "DecoyTier"));
  }

  lemma GoodOtherFields(subject: string, e: Event)
    ensures AllGood(CefDataFields(e.data)) && PlainNames(CefDataFields(e.data))
    ensures AllGood(CefFalcoFields(subject, e.fields)) && PlainNames(CefFalcoFields(subject, e.fields))
  {
    hide Good, Field, AllGood, PlainNames, Clean, GetString, Contains;
    NoTag();
    if e.data.Some? {
      var m := e.data.value;
      GoodField(m, "command", "cs2", false, "Command");
      GoodField(m, "username", "suser", false, "");
      GoodConcat(Field(m, "command", "cs2", false, "Command"), Field(m, "username", "suser", false, ""));
    }
    GoodField(e.fields, "rule", "cs4", false, "FalcoRule");
    GoodField(e.fields, "output", "msg", false, "");
    GoodConcat(Field(e.fields, "rule", "cs4", false, "FalcoRule"), Field(e.fields, "output", "msg", false, ""));
  }

  /**
   The reader of a record's eighth field returns exactly the event's extension, in order and
   unescaped, if and only if the two values that are printed without an escape hold no equals
   sign, and no backslash but at their end.
   */
  lemma ReadCefExtension(subject: string, e: Event)
    ensures var parts := SplitUnescaped(CefRecord(subject, e), 7);
            && |parts| == 8
            && (ReadExtension(parts[7]) == Expected(CefExtensions(subject, e)) <==>
                  Clean(GetString(e.fields, "source_port")) && Clean(GetString(e.fields, "decoy_tier")))
  {
    hide AllGood, PlainNames, Clean, GetString, CefEventFields, CefDataFields, CefLateFields, CefFalcoFields,
      SplitUnescaped, CefRecord, ReadExtension;
    var f := e.fields;
    ReadCef(subject, e);
    GoodEventFields(f);
    GoodLateFields(f);
    GoodOtherFields(subject, e);
    GoodConcat(CefEventFields(f), CefDataFields(e.data));
    GoodConcat(CefEventFields(f) + CefDataFields(e.data), CefLateFields(f));
    GoodConcat(CefEventFields(f) + CefDataFields(e.data) + CefLateFields(f), CefFalcoFields(subject, f));
    ReadExactly(CefExtensions(subject, e));
  }

  /** A decoy tier with an equals sign is an event that the reader gets wrong. */
  lemma TierBreaksReading(subject: string)
    ensures var e := Event(map["decoy_tier" := "a b=c"], Options.None);
            var parts := SplitUnescaped(CefRecord(subject, e), 7);
            |parts| == 8 && ReadExtension(parts[7]) != Expected(CefExtensions(subject, e))
  {
    var e := Event(map["decoy_tier" := "a b=c"], Options.None);
    assert "a b=c"[3] == '=';
    hide ReadExtension, SplitUnescaped, CefRecord, CefExtensions, Expected;
    ReadCefExtension(subject, e);
  }
}
