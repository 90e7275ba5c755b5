/** Properties of the command record, its classification and its dispatch. */
module CommandLemmas {
  import opened Wrappers
  import opened Text
  import opened Numeric
  import opened Commands

  /**
   A writer's text without NUL, followed by one more byte (typically the
   newline of `echo`), is read back as exactly that text.
   */
  lemma {:induction false} ReadBackTerminated(t: string, last: char)
    requires Nul !in t && |t| < ReadSize
    ensures CommandText(t + [last]) == t
  {
    assert (t + [last])[..|t|] == t;
    TakeUntilNulOfPlain(t);
  }

  /** Bytes after an embedded NUL never reach the command text. */
  lemma {:induction false} ReadBackCutAtNul(t: string, rest: seq<char>)
    requires Nul !in t && |t| + 1 + |rest| <= ReadSize && |rest| > 0
    ensures CommandText(t + [Nul] + rest) == t
  {
    var data := t + [Nul] + rest;
    assert data[..|data| - 1] == t + [Nul] + rest[..|rest| - 1];
    TakeUntilNulOfTerminated(t, rest[..|rest| - 1]);
  }

  /** A whole poll of a terminated write is the dispatch of the written text. */
  lemma PollOfWrite(t: string, last: char, eng: EngineReply, st: HostState)
    requires Nul !in t && |t| < ReadSize
    requires FitsBuffer(Read(t + [last]))
    ensures CheckCommands(Read(t + [last]), eng, st)
      == match Classify(t)
         case Success(c) => Success(Dispatch(c, eng, st))
         case Failure(f) => Failure(f)
  {
    ReadBackTerminated(t, last);
  }

  /** Only the exact text `exit` stops the host; a longer text is unrecognized. */
  lemma ExitIsExact(tail: string)
    requires |tail| > 0
    ensures Classify("exit" + tail) == Success(Unrecognized("exit" + tail))
  {
    var cmd := "exit" + tail;
    assert cmd[0] == 'e' && cmd != "exit";
    assert !StartsWith(cmd, StartTimeQuery) by {
      assert cmd[0] != StartTimeQuery[0];
    }
  }

  /** Braces win over every prefix: `{…}` evaluates exactly the text inside. */
  lemma EvalRoundTrip(code: string)
    ensures Classify("{" + code + "}") == Success(Eval(code))
  {
    var cmd := "{" + code + "}";
    assert cmd[0] == '{' && cmd[|cmd| - 1] == '}';
    assert cmd[1..|cmd| - 1] == code;
  }

  /** `{-1}` is code to evaluate, not a remove command. */
  lemma BracedDashIsEval()
    ensures Classify("{-1}") == Success(Eval("-1"))
  {
    EvalRoundTrip("-1");
    assert "{" + "-1" + "}" == "{-1}";
  }

  /** The add payload starts at index 2, whatever the second character is. */
  lemma AddRoundTrip(second: char, payload: string)
    ensures Classify("+" + [second] + payload) == Success(Add(payload))
  {
    var cmd := "+" + [second] + payload;
    assert cmd[0] == '+' && cmd[2..] == payload;
  }

  /** Any text starting with `-` is handled by the remove branch. */
  lemma ClassifyDash(cmd: string)
    requires |cmd| > 0 && cmd[0] == '-'
    ensures Classify(cmd) == Success(ParseRemove(cmd))
  {
    assert cmd != "exit";
  }

  /**
   The remove branch reads the token after the FIRST space: whatever
   precedes it (the `-` and any text without a space) is ignored, and
   later spaces belong to the token.
   */
  lemma ParseRemoveAfterFirstSpace(head: string, token: string)
    requires ' ' !in head
    ensures ParseRemove(head + " " + token)
      == match ParseShredId(token)
         case Success(id) => Remove(id)
         case Failure(_) => RemoveBadId(token)
  {
    var cmd := head + " " + token;
    assert cmd[..|head|] == head;
    assert cmd[|head|] == ' ';
    assert ' ' in cmd;
    assert cmd[|head| + 1..] == token;
  }

  /** The remove branch of the classifier, for any text before the first space. */
  lemma RemoveAfterFirstSpace(head: string, token: string)
    requires ' ' !in head
    ensures Classify("-" + head + " " + token)
      == Success(match ParseShredId(token)
                 case Success(id) => Remove(id)
                 case Failure(_) => RemoveBadId(token))
  {
    var h := "-" + head;
    assert ' ' !in h by {
      assert forall i :: 1 <= i < |h| ==> h[i] == head[i - 1];
    }
    assert "-" + head + " " + token == h + " " + token;
    ClassifyDash(h + " " + token);
    ParseRemoveAfterFirstSpace(h, token);
  }

  /** `-x 42` removes shred 42: the text between the dash and the space is ignored. */
  lemma RemoveAfterFlagExample()
    ensures Classify("-x 42") == Success(Remove(42))
  {
    assert ToDigits(42, Decimal) == "42" by {
      assert ToDigits(4, Decimal) == "4";
      assert DigitChar(2) == '2';
    }
    ShredIdOfDecimal(42);
    var cmd := "-x 42";
    assert cmd == "-" + "x" + " " + "42";
    RemoveAfterFirstSpace("x", "42");
  }

  /** The remove branch with nothing between the dash and the space. */
  lemma ParseRemoveAfterSpace(token: string)
    ensures ParseRemove("- " + token)
      == match ParseShredId(token)
         case Success(id) => Remove(id)
         case Failure(_) => RemoveBadId(token)
  {
    ParseRemoveAfterFirstSpace("-", token);
    assert "-" + " " + token == "- " + token;
  }

  /** A decimal numeral never carries the radix-16 marker. */
  lemma DecimalNotHexMarked(n: nat)
    ensures !StartsWith(ToDigits(n, Decimal), HexMarker)
  {
    var d := ToDigits(n, Decimal);
    if |d| >= 2 {
      DigitIsNotSpaceOrSign(d[1], Decimal);
    }
  }

  /** A decimal id token is read in radix 10, up to `ULONG_MAX`. */
  lemma ShredIdOfDecimal(n: nat)
    ensures ParseShredId(ToDigits(n, Decimal))
      == if n <= ULongMax then Success(n) else Failure(OutOfRange)
  {
    var d := ToDigits(n, Decimal);
    DecimalNotHexMarked(n);
    assert d + [] == d;
    StrToULOfDigits(n, [], Decimal);
  }

  /** Any decimal digit run, leading zeros included, is read in radix 10 as the value of the whole run. */
  lemma ShredIdOfDigitRun(ds: string)
    requires |ds| > 0 && AllDigits(ds, Decimal)
    ensures ParseShredId(ds)
      == if Value(ds, Decimal) <= ULongMax then Success(Value(ds, Decimal)) else Failure(OutOfRange)
  {
    if |ds| >= 2 {
      DigitIsNotSpaceOrSign(ds[1], Decimal);
    }
    assert !StartsWith(ds, HexMarker);
    assert ds + [] == ds;
    StrToULOfDigitRun(ds, [], Decimal);
  }

  /** A `0x` followed by any hex digit run, leading zeros included, is read in radix 16. */
  lemma ShredIdOfHexRun(ds: string)
    requires |ds| > 0 && AllDigits(ds, Hex)
    ensures ParseShredId("0x" + ds)
      == if Value(ds, Hex) <= ULongMax then Success(Value(ds, Hex)) else Failure(OutOfRange)
  {
    var token := "0x" + ds;
    assert StartsWith(token, HexMarker) by {
      assert token[..2] == HexMarker;
    }
    assert "0x" + ds + [] == token;
    StrToULOfPrefixedHexRun(ds, []);
  }

  /** `- 007` removes shred 7: leading zeros do not change a decimal id. */
  lemma RemoveLeadingZerosExample()
    ensures Classify("- 007") == Success(Remove(7))
  {
    assert Value("007", Decimal) == 7 by {
      assert "007"[..2] == "00" && "00"[..1] == "0" && "0"[..0] == "";
    }
    ShredIdOfDigitRun("007");
    var cmd := "- 007";
    assert cmd == "-" + "" + " " + "007";
    RemoveAfterFirstSpace("", "007");
  }

  /** `0x002a` is read as 42 in radix 16. */
  lemma HexLeadingZerosId()
    ensures ParseShredId("0x002a") == Success(42)
  {
    var ds := "002a";
    assert Value(ds, Hex) == 42 by {
      assert ds[..3] == "002" && "002"[..2] == "00" && "00"[..1] == "0" && "0"[..0] == "";
    }
    ShredIdOfHexRun(ds);
    assert "0x" + ds == "0x002a";
  }

  /** `- 0x002a` removes shred 42: leading zeros do not change a hex id. */
  lemma RemoveHexLeadingZerosExample()
    ensures Classify("- 0x002a") == Success(Remove(42))
  {
    HexLeadingZerosId();
    var cmd := "- 0x002a";
    assert cmd == "-" + "" + " " + "0x002a";
    RemoveAfterFirstSpace("", "0x002a");
  }

  /** A space-separated decimal id is removed; one above `ULONG_MAX` is a bad id. */
  lemma RemoveDecimalRoundTrip(n: nat)
    ensures Classify("- " + ToDigits(n, Decimal))
      == if n <= ULongMax then Success(Remove(n))
         else Success(RemoveBadId(ToDigits(n, Decimal)))
  {
    var d := ToDigits(n, Decimal);
    ClassifyDash("- " + d);
    ParseRemoveAfterSpace(d);
    ShredIdOfDecimal(n);
  }

  /** A `0x`-prefixed id is read in radix 16. */
  lemma RemoveHexRoundTrip(n: nat)
    requires n <= ULongMax
    ensures Classify("- 0x" + ToDigits(n, Hex)) == Success(Remove(n))
  {
    var d := ToDigits(n, Hex);
    var token := "0x" + d;
    assert "- 0x" + d == "- " + token;
    ClassifyDash("- " + token);
    ParseRemoveAfterSpace(token);
    assert StartsWith(token, HexMarker);
    assert token + [] == token;
    StrToULOfPrefixedHex(n, []);
  }

  /** `- 0x2a` removes shred 42. */
  lemma RemoveHexExample()
    ensures Classify("- 0x2a") == Success(Remove(42))
  {
    assert ToDigits(42, Hex) == "2a" by {
      assert ToDigits(2, Hex) == "2";
      assert DigitChar(10) == 'a';
    }
    RemoveHexRoundTrip(42);
    assert "- 0x" + "2a" == "- 0x2a";
  }

  /** An id token with no decimal digit is reported as a bad id. */
  lemma RemoveWithoutDigits(token: string)
    requires !StartsWith(token, HexMarker)
    requires forall i :: 0 <= i < |token| ==> !IsDigit(token[i], Decimal)
    ensures Classify("- " + token) == Success(RemoveBadId(token))
  {
    ClassifyDash("- " + token);
    ParseRemoveAfterSpace(token);
    StrToULWithoutDigits(token, Decimal);
  }

  /** A `-` command without a space is rejected before any id is read. */
  lemma RemoveWithoutSpace(tail: string)
    requires ' ' !in tail
    ensures Classify("-" + tail) == Success(RemoveBadFormat)
  {
    var cmd := "-" + tail;
    assert ' ' !in cmd by {
      assert forall i :: 1 <= i < |cmd| ==> cmd[i] == tail[i - 1];
    }
  }

  /** A failed eval leaves the echoed shred id alone; a successful one takes the engine's last id. */
  lemma EvalUpdatesShredIdOnlyOnSuccess(code: string, eng: EngineReply, st: HostState)
    ensures Dispatch(Eval(code), eng, st).next.shredId
      == if eng.compileOk then eng.lastId else st.shredId
    ensures Dispatch(Eval(code), eng, st).sent.None?
  {
  }
}
