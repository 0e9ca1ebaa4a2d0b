/** ReceptionAgent.process: a keyword classifier that touches no collection. */
module Reception {
  import opened Text

  /** What the receptionist answers with; each is one `action` tag of the source. */
  datatype Desk = Greeting | CallRouting | Support | DeskHelp

  const Greetings: seq<string> := ["hello", "hi", "hey", "good morning", "good afternoon", "good evening"]
  const CallWords: seq<string> := ["call", "phone", "contact", "transfer"]
  const SupportWords: seq<string> := ["support", "help", "issue", "problem"]

  /** Greetings first, then call routing, then support, else the help text. */
  function Receive(lower: string): Desk {
    if ContainsAny(lower, Greetings) then Greeting
    else if ContainsAny(lower, CallWords) then CallRouting
    else if ContainsAny(lower, SupportWords) then Support
    else DeskHelp
  }

  /**
   * The classification stated keyword by keyword: routing a call needs a call
   * word and no greeting, support needs neither, and since "hi" is matched as
   * a substring, "hi" anywhere (as in "this" or "which") makes the text a
   * greeting whatever else it says.
   */
  lemma ReceivePrecedence(lower: string)
    ensures Contains(lower, "hi") ==> Receive(lower) == Greeting
    ensures Receive(lower) == Greeting <==>
      Contains(lower, "hello") || Contains(lower, "hi") || Contains(lower, "hey") ||
      Contains(lower, "good morning") || Contains(lower, "good afternoon") || Contains(lower, "good evening")
    ensures Receive(lower) == CallRouting <==>
      Receive(lower) != Greeting &&
      (Contains(lower, "call") || Contains(lower, "phone") || Contains(lower, "contact") || Contains(lower, "transfer"))
    ensures Receive(lower) == Support <==>
      Receive(lower) != Greeting && Receive(lower) != CallRouting &&
      (Contains(lower, "support") || Contains(lower, "help") || Contains(lower, "issue") || Contains(lower, "problem"))
  {
    assert Greetings[0] == "hello" && Greetings[1] == "hi" && Greetings[2] == "hey";
    assert Greetings[3] == "good morning" && Greetings[4] == "good afternoon" && Greetings[5] == "good evening";
    assert CallWords[0] == "call" && CallWords[1] == "phone" && CallWords[2] == "contact" && CallWords[3] == "transfer";
    assert SupportWords[0] == "support" && SupportWords[1] == "help" && SupportWords[2] == "issue";
    assert SupportWords[3] == "problem";
  }

  /** "Please transfer this call" is greeted rather than routed: "this" contains "hi". */
  lemma TransferThisCallIsGreeted()
    ensures Receive("please transfer this call") == Greeting
  {
    var s := "please transfer this call";
    assert s[17..19] == "hi";
    assert OccursAt(s, "hi", 17);
    ReceivePrecedence(s);
  }
}
