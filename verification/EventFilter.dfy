/** When filtering by name variants finds the events a caller means. */
module EventFilter {
  import opened Strings
  import opened EventNames
  import opened EventNameLaws
  import opened EventLog

  /** The stored type is the normal form of a requested one. */
  ghost predicate Wanted(requested: seq<string>, stored: string) {
    requested == [] || exists r :: r in requested && stored == NormalizeEventType(r)
  }

  /** r is not empty, and its camel-case form is not the normal form of a type that was not requested. */
  ghost predicate SafeRequest(requested: seq<string>, r: string) {
    r != "" && (Ambiguous(r) ==> Wanted(requested, SnakeToCamel(NormalizeEventType(r))))
  }

  lemma FilterSound(requested: seq<string>, stored: string)
    requires forall r :: r in requested ==> SafeRequest(requested, r)
    requires NoUpper(stored)
    ensures TypeSelected(requested, stored) <==> Wanted(requested, stored)
  {
    SomeVariant(requested);
    AllVariantsMember(requested, stored);
    if requested != [] {
      assert requested[0] in requested && SafeRequest(requested, requested[0]);
      forall r | r in requested
        ensures stored in EventTypeVariants(r) ==> Wanted(requested, stored)
        ensures stored == NormalizeEventType(r) ==> stored in EventTypeVariants(r)
      {
        assert SafeRequest(requested, r);
        VariantsExact(r, stored);
        NormalizeNoUpper(r);
      }
    }
  }

  lemma EmptyRequestBreaks(requested: seq<string>)
    requires "" in requested
    ensures exists stored :: NoUpper(stored) && TypeSelected(requested, stored) != Wanted(requested, stored)
  {
    SomeVariant(requested);
    if AllVariants(requested) == {} {
      assert NoUpper("x") && TypeSelected(requested, "x") && !Wanted(requested, "x");
    } else {
      AllVariantsMember(requested, "");
      assert NoUpper("") && !TypeSelected(requested, "") && Wanted(requested, "");
    }
  }

  lemma AmbiguousRequestBreaks(requested: seq<string>, r: string)
    requires r in requested && Ambiguous(r) && !Wanted(requested, SnakeToCamel(NormalizeEventType(r)))
    ensures exists stored :: NoUpper(stored) && TypeSelected(requested, stored) != Wanted(requested, stored)
  {
    var n := NormalizeEventType(r);
    var c := SnakeToCamel(n);
    NormalizeNoUpper(r);
    CamelVariantNormal(n);
    VariantsExact(r, c);
    AllVariantsMember(requested, c);
    assert NoUpper(c) && TypeSelected(requested, c);
  }

  /**
   For every type append_event can have stored, the SQL filter selects exactly the wanted rows:
   if and only if every requested name is safe.
   */
  lemma FilterExact(requested: seq<string>)
    ensures (forall stored :: NoUpper(stored) ==> (TypeSelected(requested, stored) <==> Wanted(requested, stored)))
       <==> forall r :: r in requested ==> SafeRequest(requested, r)
  {
    if r :| r in requested && !SafeRequest(requested, r) {
      if r == "" {
        EmptyRequestBreaks(requested);
      } else {
        AmbiguousRequestBreaks(requested, r);
      }
    } else {
      forall stored | NoUpper(stored)
        ensures TypeSelected(requested, stored) <==> Wanted(requested, stored)
      {
        FilterSound(requested, stored);
      }
    }
  }

  /** A name whose first part starts with a letter is always safe. */
  lemma LetterFirstIsSafe(requested: seq<string>, r: string)
    requires r != "" && var first := Split(NormalizeEventType(r))[0]; first != "" && IsLower(first[0])
    ensures SafeRequest(requested, r)
  {
    var parts := Split(NormalizeEventType(r));
    assert parts[0] in parts;
  }

  lemma PrintedDigits()
    ensures SnakeToCamel("1_2") == "12"
  {
    SplitJoin(["1", "2"]);
    assert Suffixes(["2"]) == "_2" + Suffixes([]);
    assert Join(["1", "2"]) == "1_2";
    assert Camel(["1", "2"]) == "1" + Camel(["2"]);
    assert Camel(["2"]) == "2" + Camel([]);
  }

  /** Asking for type 1_2 also returns the events of type 12. */
  lemma CollisionExample()
    ensures NoUpper("12") && !Wanted(["1_2"], "12") && TypeSelected(["1_2"], "12")
  {
    NoUpperIsNormal("1_2");
    PrintedDigits();
    assert "1_2" in ["1_2"] && "12" in EventTypeVariants("1_2");
    AllVariantsMember(["1_2"], "12");
  }
}
