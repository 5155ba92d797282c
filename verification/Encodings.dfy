/** What goes onto the wire for each type of message, byte by byte. */
module Encodings {
  import opened Bytes
  import JsonStrings
  import Numbers
  import opened Messages
  import opened Wire
  import opened Streams

  lemma VersionKey()
    ensures [LBRACE] + Key(VERSION) == Lit("{\"version\":")
  {
  }

  lemma DataKey()
    ensures [ZERO as int + 2, COMMA] + Key(DATA) == Lit("2,\"data\":")
  {
  }

  lemma MessageKey()
    ensures [LBRACE] + (Key(MESSAGE) + [QUOTE]) == Lit("{\"message\":\"")
  {
  }

  lemma ValveKey()
    ensures [QUOTE] + ([COMMA] + Key(VALVE_NO)) == Lit("\",\"valve_no\":")
  {
  }

  lemma TypeKey()
    ensures [RBRACE, COMMA] + Key(TYPE) == Lit("},\"type\":")
  {
  }

  lemma ValveName()
    ensures [QUOTE] + HARD_ERROR_VALVE + [QUOTE, RBRACE] == Lit("\"HARD_ERROR_") + Lit("VALVE\"}")
  {
  }

  lemma OtherName()
    ensures [QUOTE] + HARD_ERROR_OTHER + [QUOTE, RBRACE] == Lit("\"HARD_ERROR_") + Lit("OTHER\"}")
  {
  }

  lemma SoftName()
    ensures [QUOTE] + SOFT_ERROR + [QUOTE, RBRACE] == Lit("\"SOFT_ERROR\"}")
  {
  }

  lemma KeepAliveName()
    ensures [QUOTE] + KEEP_ALIVE + [QUOTE, RBRACE] == Lit("\"KEEP_ALIVE\"}")
  {
  }

  lemma TypeNames(m: Message)
    requires !m.Invalid?
    ensures TypeName(m) == if m.HardErrorValve? then HARD_ERROR_VALVE
                           else if m.HardErrorOther? then HARD_ERROR_OTHER
                           else if m.SoftError? then SOFT_ERROR
                           else KEEP_ALIVE
  {
  }

  lemma FrontIs(m: Message)
    ensures m.KeepAlive? ==> Front(m) == Lit("{\"version\":") + Lit("2,\"data\":") + Lit("{")
    ensures !m.KeepAlive? ==> Front(m) == Lit("{\"version\":") + Lit("2,\"data\":") + Lit("{\"message\":\"")
  {
    VersionKey();
    DataKey();
    MessageKey();
    hide Key;
    var two, message: Text := [ZERO as int + 2, COMMA], Key(MESSAGE) + [QUOTE];
    assert Lit("{") == [LBRACE];
    assert Head() == ([LBRACE] + Key(VERSION)) + (two + Key(DATA)) + [LBRACE];
    assert Head() + message == ([LBRACE] + Key(VERSION)) + (two + Key(DATA)) + ([LBRACE] + message);
  }

  /** Behind the text. */
  lemma BackIs(m: Message)
    requires !m.Invalid?
    ensures var name := [QUOTE] + TypeName(m) + [QUOTE, RBRACE];
            Back(m) == (if m.HardErrorValve? then Lit("\",\"valve_no\":") + Numbers.Decimal(m.valveNo)
                        else if m.KeepAlive? then []
                        else Lit("\""))
                       + Lit("},\"type\":") + name
  {
    hide *;
    BackParts(m);
    ValveKey();
    TypeKey();
    var name := [QUOTE] + TypeName(m) + [QUOTE, RBRACE];
    JsonStrings.Assoc([RBRACE, COMMA], Key(TYPE), name);
    if m.KeepAlive? {
      NothingBefore(Lit("},\"type\":"), name);
    } else {
      var behind := if m.HardErrorValve? then Lit("\",\"valve_no\":") + Numbers.Decimal(m.valveNo) else Lit("\"");
      if m.HardErrorValve? {
        var n := Numbers.Decimal(m.valveNo);
        JsonStrings.Assoc([COMMA], Key(VALVE_NO), n);
        JsonStrings.Assoc([QUOTE], [COMMA] + Key(VALVE_NO), n);
      }
      JsonStrings.Assoc(behind, Lit("},\"type\":"), name);
    }
  }

  lemma NothingBefore(a: Text, b: Text)
    ensures [] + a + b == a + b
  {
  }

  lemma BackParts(m: Message)
    requires !m.Invalid?
    ensures Back(m) == if m.KeepAlive? then Tail(m) else [QUOTE] + Number(m) + Tail(m)
    ensures Tail(m) == [RBRACE, COMMA] + (Key(TYPE) + ([QUOTE] + TypeName(m) + [QUOTE, RBRACE]))
    ensures m.HardErrorValve? ==> Number(m) == [COMMA] + (Key(VALVE_NO) + Numbers.Decimal(m.valveNo))
    ensures !m.HardErrorValve? ==> [QUOTE] + Number(m) == Lit("\"")
  {
    assert Lit("\"") == [QUOTE] && [QUOTE] + [] == [QUOTE];
    hide Key, TypeName;
  }

  lemma Around(a: Text, t: Text, b: Text, c: Text, d: Text, e: Text)
    ensures a + (t + (b + c + (d + e))) == a + t + b + c + d + e
  {
  }

  lemma ValveBytes(n: int, t: Text)
    ensures Encoded(HardErrorValve(n, t))
         == Lit("{\"version\":") + Lit("2,\"data\":") + Lit("{\"message\":\"") + JsonStrings.Escape(t)
            + (Lit("\",\"valve_no\":") + Numbers.Decimal(n)) + Lit("},\"type\":")
            + Lit("\"HARD_ERROR_") + Lit("VALVE\"}")
  {
    hide *;
    var m := HardErrorValve(n, t);
    EncodedParts(m);
    FrontIs(m);
    BackIs(m);
    TypeNames(m);
    ValveName();
    CarriedText(m);
    Around(Front(m), JsonStrings.Escape(t), Lit("\",\"valve_no\":") + Numbers.Decimal(n), Lit("},\"type\":"),
           Lit("\"HARD_ERROR_"), Lit("VALVE\"}"));
  }

  lemma OtherBytes(t: Text)
    ensures Encoded(HardErrorOther(t))
         == Lit("{\"version\":") + Lit("2,\"data\":") + Lit("{\"message\":\"") + JsonStrings.Escape(t)
            + Lit("\"") + Lit("},\"type\":") + Lit("\"HARD_ERROR_") + Lit("OTHER\"}")
  {
    hide *;
    var m := HardErrorOther(t);
    EncodedParts(m);
    FrontIs(m);
    BackIs(m);
    TypeNames(m);
    OtherName();
    CarriedText(m);
    Around(Front(m), JsonStrings.Escape(t), Lit("\""), Lit("},\"type\":"), Lit("\"HARD_ERROR_"), Lit("OTHER\"}"));
  }

  lemma SoftBytes(t: Text)
    ensures Encoded(SoftError(t))
         == Lit("{\"version\":") + Lit("2,\"data\":") + Lit("{\"message\":\"") + JsonStrings.Escape(t)
            + Lit("\"") + Lit("},\"type\":") + Lit("\"SOFT_ERROR\"}")
  {
    hide *;
    var m := SoftError(t);
    EncodedParts(m);
    FrontIs(m);
    BackIs(m);
    TypeNames(m);
    SoftName();
    CarriedText(m);
    Around(Front(m), JsonStrings.Escape(t), Lit("\""), Lit("},\"type\":"), Lit("\"SOFT_ERROR\"}"), []);
  }

  lemma KeepAliveBytes()
    ensures Encoded(KeepAlive)
         == Lit("{\"version\":") + Lit("2,\"data\":") + Lit("{") + Lit("},\"type\":") + Lit("\"KEEP_ALIVE\"}")
  {
    hide *;
    var m := KeepAlive;
    EncodedParts(m);
    FrontIs(m);
    BackIs(m);
    TypeNames(m);
    KeepAliveName();
    CarriedText(m);
    Around(Front(m), [], [], Lit("},\"type\":"), Lit("\"KEEP_ALIVE\"}"), []);
  }

  lemma CarriedText(m: Message)
    ensures m.HardErrorValve? || m.HardErrorOther? || m.SoftError? ==> Carried(m) == m.text
    ensures m.KeepAlive? ==> JsonStrings.Escape(Carried(m)) == []
  {
  }
}
