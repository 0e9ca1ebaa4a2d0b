/** KnowledgeBaseAgent.process: a topic lookup that touches no collection. */
module KnowledgeBase {
  import opened Options
  import opened Text

  datatype Topic = Company | Features | Pricing | SupportInfo

  /** The `knowledge_base` dictionary's keys in insertion order, which is the order they are tried. */
  const Keys: seq<(string, Topic)> :=
    [("company", Company), ("features", Features), ("pricing", Pricing), ("support", SupportInfo)]

  const PriceWords: seq<string> := ["price", "cost", "plan"]
  const HelpWords: seq<string> := ["help", "support", "contact"]

  /** An answer from the dictionary, or the fallback `search` reply. */
  datatype Answer = Found(topic: Topic) | NotFound

  /** The first key (in the given order) that occurs in the text. */
  function FirstKey(lower: string, keys: seq<(string, Topic)>): (r: Option<Topic>)
    ensures r.None? ==> forall k :: 0 <= k < |keys| ==> !Contains(lower, keys[k].0)
    ensures r.Some? ==> exists k :: 0 <= k < |keys| && keys[k].1 == r.value && Contains(lower, keys[k].0) &&
                          forall j :: 0 <= j < k ==> !Contains(lower, keys[j].0)
  {
    if keys == [] then None
    else if Contains(lower, keys[0].0) then
      Some(keys[0].1)
    else
      var r := FirstKey(lower, keys[1..]);
      assert forall k :: 1 <= k < |keys| ==> keys[k] == keys[1..][k - 1];
      assert r.Some? ==> exists k :: 1 <= k < |keys| && keys[k].1 == r.value && Contains(lower, keys[k].0) &&
                           forall j :: 0 <= j < k ==> !Contains(lower, keys[j].0) by {
        if r.Some? {
          var k :| 0 <= k < |keys[1..]| && keys[1..][k].1 == r.value && Contains(lower, keys[1..][k].0) &&
                   forall j :: 0 <= j < k ==> !Contains(lower, keys[1..][j].0);
          assert keys[k + 1] == keys[1..][k];
        }
      }
      r
  }

  /** Dictionary keys first, then price/cost/plan, then help/support/contact, then "feature". */
  function Lookup(lower: string): Answer {
    match FirstKey(lower, Keys)
    case Some(t) => Found(t)
    case None =>
      if ContainsAny(lower, PriceWords) then Found(Pricing)
      else if ContainsAny(lower, HelpWords) then Found(SupportInfo)
      else if Contains(lower, "feature") then Found(Features)
      else NotFound
  }

  /** Each answer characterised by the words the text contains, in both directions. */
  lemma {:induction false} LookupCharacterised(lower: string)
    ensures
      var company, features, pricing, support := Contains(lower, "company"), Contains(lower, "features"),
                                                 Contains(lower, "pricing"), Contains(lower, "support");
      var price := Contains(lower, "price") || Contains(lower, "cost") || Contains(lower, "plan");
      var help := Contains(lower, "help") || Contains(lower, "contact");
      && (Lookup(lower) == Found(Company) <==> company)
      && (Lookup(lower) == Found(Features) <==>
            !company && (features || (!pricing && !support && !price && !help && Contains(lower, "feature"))))
      && (Lookup(lower) == Found(Pricing) <==> !company && !features && (pricing || (!support && price)))
      && (Lookup(lower) == Found(SupportInfo) <==> !company && !features && !pricing && (support || (!price && help)))
      && (Lookup(lower) == NotFound <==>
            !company && !pricing && !support && !price && !help && !Contains(lower, "feature"))
  {
    var r := FirstKey(lower, Keys);
    assert Keys[0].0 == "company" && Keys[1].0 == "features" && Keys[2].0 == "pricing" && Keys[3].0 == "support";
    assert Keys[0].1 == Company && Keys[1].1 == Features && Keys[2].1 == Pricing && Keys[3].1 == SupportInfo;
    assert PriceWords[0] == "price" && PriceWords[1] == "cost" && PriceWords[2] == "plan";
    assert HelpWords[0] == "help" && HelpWords[1] == "support" && HelpWords[2] == "contact";
    assert Contains("features", "feature") by { assert OccursAt("features", "feature", 0); }
    if Contains(lower, "features") { ContainsTrans(lower, "features", "feature"); }
    if r.Some? {
      var k :| 0 <= k < |Keys| && Keys[k].1 == r.value && Contains(lower, Keys[k].0) &&
               forall j :: 0 <= j < k ==> !Contains(lower, Keys[j].0);
      assert k == 0 || k == 1 || k == 2 || k == 3;
    }
  }
}
