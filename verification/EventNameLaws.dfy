/** The scanner as one local rule, and what scanner and printer do to each other's output. */
module EventNameLaws {
  import opened Common
  import opened Strings
  import opened EventNames

  // ----- the local rule

  /** An upper-case letter is cut off from the upper-case letter before it when a lower-case letter follows. */
  predicate AcronymCut(prev: Option<char>, s: string) {
    prev.Some? && |s| > 1 && IsUpper(prev.value) && IsUpper(s[0]) && IsLower(s[1])
  }

  /** An upper-case letter is cut off from a lower-case letter or digit before it. */
  predicate WordCut(prev: Option<char>, s: string) {
    prev.Some? && s != "" && IsLowerOrDigit(prev.value) && IsUpper(s[0])
  }

  predicate Cut(prev: Option<char>, s: string) {
    AcronymCut(prev, s) || WordCut(prev, s)
  }

  function Insert(cut: (Option<char>, string) -> bool, prev: Option<char>, s: string): string
    decreases |s|
  {
    if s == "" then "" else (if cut(prev, s) then "_" else "") + [s[0]] + Insert(cut, Some(s[0]), s[1..])
  }

  /** Lower-case s with an underscore wherever the rule cuts; prev is the character in front of s. */
  function Snake(prev: Option<char>, s: string): string
    decreases |s|
  {
    if s == "" then "" else (if Cut(prev, s) then "_" else "") + [LowerChar(s[0])] + Snake(Some(s[0]), s[1..])
  }

  // ----- each regex pass follows its half of the rule

  function Before(s: string, i: nat): Option<char>
    requires i <= |s|
  {
    if i == 0 then None else Some(s[i - 1])
  }

  lemma InsertUnfold(cut: (Option<char>, string) -> bool, s: string, i: nat)
    requires i < |s|
    ensures Insert(cut, Before(s, i), s[i..])
         == (if cut(Before(s, i), s[i..]) then "_" else "") + [s[i]] + Insert(cut, Before(s, i + 1), s[i + 1..])
  {
    assert s[i..][1..] == s[i + 1..];
  }

  lemma InsertUncut(cut: (Option<char>, string) -> bool, s: string, i: nat)
    requires i < |s| && !cut(Before(s, i), s[i..])
    ensures Insert(cut, Before(s, i), s[i..]) == [s[i]] + Insert(cut, Before(s, i + 1), s[i + 1..])
  {
    InsertUnfold(cut, s, i);
    assert "" + [s[i]] == [s[i]];
  }

  lemma SliceHead(s: string, i: nat, k: nat, tail: string)
    requires i < k <= |s|
    ensures s[i..k] + tail == [s[i]] + (s[i + 1..k] + tail)
  {
    assert s[i..k] == [s[i]] + s[i + 1..k];
  }

  lemma {:induction false} SkipUncut(cut: (Option<char>, string) -> bool, s: string, i: nat, k: nat)
    requires i <= k <= |s|
    requires forall m :: i <= m < k ==> !cut(Before(s, m), s[m..])
    ensures Insert(cut, Before(s, i), s[i..]) == s[i..k] + Insert(cut, Before(s, k), s[k..])
    decreases k - i
  {
    if i < k {
      SkipUncut(cut, s, i + 1, k);
      InsertUncut(cut, s, i);
      SliceHead(s, i, k, Insert(cut, Before(s, k), s[k..]));
    } else {
      assert s[i..k] == "";
    }
  }

  /** Giving back characters from a whole run, the group can only stop one short of the run's end. */
  lemma {:induction false} BacktrackFinds(s: string, i: nat, k: nat)
    requires i <= |s| && i <= k <= RunEnd(s, i)
    ensures var j := RunEnd(s, i);
      Backtrack(s, i, k) == if i + 1 < j && j - 1 <= k && j < |s| && IsLower(s[j]) then j - 1 else 0
    decreases k
  {
    if i < k {
      BacktrackFinds(s, i, k - 1);
    }
  }

  lemma RunEndUnique(s: string, i: nat, j: nat)
    requires i <= j <= |s| && (forall m :: i <= m < j ==> IsUpper(s[m])) && (j < |s| ==> !IsUpper(s[j]))
    ensures RunEnd(s, i) == j
  {
  }

  /** What the first pass emits for one match is what the rule emits over the same characters. */
  lemma AcronymMatch(s: string, i: nat, k: nat)
    requires i < k && k + 1 < |s| && IsLower(s[k + 1]) && (forall m :: i <= m <= k ==> IsUpper(s[m]))
    requires !AcronymCut(Before(s, i), s[i..])
    ensures Insert(AcronymCut, Before(s, i), s[i..])
         == s[i..k] + "_" + s[k..k + 2] + Insert(AcronymCut, Before(s, k + 2), s[k + 2..])
  {
    SkipUncut(AcronymCut, s, i, k);
    InsertUnfold(AcronymCut, s, k);
    InsertUnfold(AcronymCut, s, k + 1);
    assert s[k..k + 2] == [s[k], s[k + 1]];
  }

  lemma MatchShape(s: string, i: nat)
    requires i <= |s|
    ensures var k := Backtrack(s, i, RunEnd(s, i));
      k == 0 || (i < k && k + 1 < |s| && IsLower(s[k + 1]) && forall m :: i <= m <= k ==> IsUpper(s[m]))
  {
    BacktrackFinds(s, i, RunEnd(s, i));
  }

  lemma PassUnmatched(s: string, i: nat)
    requires i < |s| && Backtrack(s, i, RunEnd(s, i)) == 0 && !AcronymCut(Before(s, i), s[i..])
    requires AcronymPass(s, i + 1) == Insert(AcronymCut, Before(s, i + 1), s[i + 1..])
    ensures AcronymPass(s, i) == Insert(AcronymCut, Before(s, i), s[i..])
  {
    InsertUnfold(AcronymCut, s, i);
    assert "" + [s[i]] == [s[i]];
  }

  lemma PassMatched(s: string, i: nat, k: nat)
    requires i < |s| && k == Backtrack(s, i, RunEnd(s, i)) && i < k && k + 1 < |s| && !AcronymCut(Before(s, i), s[i..])
    requires IsLower(s[k + 1]) && forall m :: i <= m <= k ==> IsUpper(s[m])
    requires AcronymPass(s, k + 2) == Insert(AcronymCut, Before(s, k + 2), s[k + 2..])
    ensures AcronymPass(s, i) == Insert(AcronymCut, Before(s, i), s[i..])
  {
    AcronymMatch(s, i, k);
  }

  lemma {:induction false} AcronymPassLocal(s: string, i: nat)
    requires i <= |s| && !AcronymCut(Before(s, i), s[i..])
    ensures AcronymPass(s, i) == Insert(AcronymCut, Before(s, i), s[i..])
    decreases |s| - i
  {
    if i < |s| {
      MatchShape(s, i);
      var k := Backtrack(s, i, RunEnd(s, i));
      if k == 0 {
        NoCutAfterNoMatch(s, i);
        AcronymPassLocal(s, i + 1);
        PassUnmatched(s, i);
      } else {
        NoCutAfterLower(s, k + 1);
        AcronymPassLocal(s, k + 2);
        PassMatched(s, i, k);
      }
    }
  }

  lemma NoCutAfterLower(s: string, i: nat)
    requires i < |s| && IsLower(s[i])
    ensures !AcronymCut(Before(s, i + 1), s[i + 1..])
  {
  }

  lemma NoCutAfterNoMatch(s: string, i: nat)
    requires i < |s| && Backtrack(s, i, RunEnd(s, i)) == 0
    ensures !AcronymCut(Before(s, i + 1), s[i + 1..])
  {
    BacktrackFinds(s, i, RunEnd(s, i));
    if i + 2 < |s| && IsUpper(s[i]) && IsUpper(s[i + 1]) && IsLower(s[i + 2]) {
      RunEndUnique(s, i, i + 2);
    }
  }

  lemma {:induction false} WordPassLocal(s: string, i: nat)
    requires i <= |s| && !WordCut(Before(s, i), s[i..])
    ensures WordPass(s, i) == Insert(WordCut, Before(s, i), s[i..])
    decreases |s| - i
  {
    if i < |s| {
      InsertUnfold(WordCut, s, i);
      if i + 1 < |s| && IsLowerOrDigit(s[i]) && IsUpper(s[i + 1]) {
        InsertUnfold(WordCut, s, i + 1);
        WordPassLocal(s, i + 2);
      } else {
        WordPassLocal(s, i + 1);
      }
    }
  }

  lemma WordPassSkipsUnderscore(prev: Option<char>, c: char, t: string)
    requires prev.Some? && IsUpper(prev.value)
    ensures Insert(WordCut, prev, "_" + [c] + t) == "_" + [c] + Insert(WordCut, Some(c), t)
  {
    var s := "_" + [c] + t;
    assert s[0] == '_' && s[1..] == [c] + t && ([c] + t)[1..] == t;
  }

  lemma WordPassHead(prev: Option<char>, c: char, t: string)
    ensures Insert(WordCut, prev, [c] + t) == (if WordCut(prev, [c] + t) then "_" else "") + [c] + Insert(WordCut, Some(c), t)
  {
    assert ([c] + t)[1..] == t;
  }

  lemma ComposeStep(prev: Option<char>, c: char, t: string, rest: string)
    requires rest == Insert(AcronymCut, Some(c), t) && Insert(WordCut, Some(c), rest) == Insert(Cut, Some(c), t)
    ensures Insert(WordCut, prev, Insert(AcronymCut, prev, [c] + t)) == Insert(Cut, prev, [c] + t)
  {
    assert ([c] + t)[1..] == t;
    if AcronymCut(prev, [c] + t) {
      WordPassSkipsUnderscore(prev, c, rest);
    } else {
      WordPassHead(prev, c, rest);
      assert "" + [c] + rest == [c] + rest;
    }
  }

  /** The second pass does not see the underscores of the first one. */
  lemma {:induction false} PassesCompose(prev: Option<char>, s: string)
    ensures Insert(WordCut, prev, Insert(AcronymCut, prev, s)) == Insert(Cut, prev, s)
    decreases |s|
  {
    if s != "" {
      PassesCompose(Some(s[0]), s[1..]);
      ComposeStep(prev, s[0], s[1..], Insert(AcronymCut, Some(s[0]), s[1..]));
      assert s == [s[0]] + s[1..];
    }
  }

  /** No two underscores meet, and none ends the string. */
  predicate Tidy(r: string) {
    && (forall i :: 0 <= i < |r| - 1 ==> r[i] != '_' || r[i + 1] != '_')
    && (r != "" ==> r[|r| - 1] != '_')
  }

  lemma {:induction false} InsertTidy(prev: Option<char>, s: string)
    requires '_' !in s
    ensures Tidy(Insert(Cut, prev, s))
    decreases |s|
  {
    if s != "" {
      InsertTidy(Some(s[0]), s[1..]);
      var r := Insert(Cut, Some(s[0]), s[1..]);
      var head := (if Cut(prev, s) then "_" else "") + [s[0]];
      assert s[0] in s;
      forall i | 0 <= i < |head + r| - 1
        ensures (head + r)[i] != '_' || (head + r)[i + 1] != '_'
      {
        if i >= |head| {
          assert r[i - |head|] != '_' || r[i - |head| + 1] != '_';
        }
      }
    }
  }

  lemma TidyTail(r: string)
    requires Tidy(r) && |r| >= 2
    ensures Tidy(r[1..]) && !(r[0] == '_' && r[1] == '_')
  {
    assert r[0] != '_' || r[0 + 1] != '_';
    forall i | 0 <= i < |r[1..]| - 1
      ensures r[1..][i] != '_' || r[1..][i + 1] != '_'
    {
      assert r[i + 1] != '_' || r[i + 1 + 1] != '_';
    }
  }

  lemma {:induction false} SquashTidy(r: string)
    requires Tidy(r)
    ensures SquashUnderscores(r) == r
    decreases |r|
  {
    if |r| >= 2 {
      TidyTail(r);
      SquashTidy(r[1..]);
    }
  }

  lemma LowerConcat(a: string, b: string)
    ensures Lower(a + b) == Lower(a) + Lower(b)
  {
  }

  lemma {:induction false} LowerInsert(prev: Option<char>, s: string)
    ensures Lower(Insert(Cut, prev, s)) == Snake(prev, s)
    decreases |s|
  {
    if s != "" {
      LowerInsert(Some(s[0]), s[1..]);
      var head := (if Cut(prev, s) then "_" else "") + [s[0]];
      LowerConcat(head, Insert(Cut, Some(s[0]), s[1..]));
    }
  }

  /** Both regex passes, the replace and the lowering together apply one rule that looks at three characters. */
  lemma CamelToSnakeIsLocal(name: string)
    requires '_' !in name
    ensures CamelToSnake(name) == Snake(None, name)
  {
    assert name[0..] == name;
    AcronymPassLocal(name, 0);
    var once := AcronymPass(name, 0);
    assert once[0..] == once;
    WordPassLocal(once, 0);
    PassesCompose(None, name);
    InsertTidy(None, name);
    SquashTidy(Insert(Cut, None, name));
    LowerInsert(None, name);
  }

  // ----- normal forms

  lemma LowerNoUpper(s: string)
    ensures NoUpper(Lower(s)) && (NoUpper(s) ==> Lower(s) == s)
    ensures '_' in Lower(s) <==> '_' in s
  {
    forall c | c in Lower(s)
      ensures !IsUpper(c)
    {
      var i :| 0 <= i < |s| && Lower(s)[i] == c;
    }
    if NoUpper(s) {
      forall i | 0 <= i < |s|
        ensures Lower(s)[i] == s[i]
      {
        assert s[i] in s;
      }
    }
    if '_' in s {
      var i :| 0 <= i < |s| && s[i] == '_';
      assert Lower(s)[i] == '_';
    }
    if '_' in Lower(s) {
      var i :| 0 <= i < |s| && Lower(s)[i] == '_';
      assert s[i] == '_';
    }
  }

  lemma NormalizeNoUpper(x: string)
    ensures NoUpper(NormalizeEventType(x))
    ensures x == "" <==> NormalizeEventType(x) == ""
  {
    LowerNoUpper(x);
    if x != "" && '_' !in x {
      LowerNoUpper(SquashUnderscores(WordPass(AcronymPass(x, 0), 0)));
      CamelToSnakeIsLocal(x);
    }
  }

  lemma {:induction false} SnakeOfNoUpper(prev: Option<char>, s: string)
    requires NoUpper(s)
    ensures Snake(prev, s) == s
    decreases |s|
  {
    if s != "" {
      assert s[0] in s && forall c :: c in s[1..] ==> c in s;
      SnakeOfNoUpper(Some(s[0]), s[1..]);
    }
  }

  lemma NoUpperIsNormal(x: string)
    requires NoUpper(x)
    ensures NormalizeEventType(x) == x
  {
    LowerNoUpper(x);
    if x != "" && '_' !in x {
      CamelToSnakeIsLocal(x);
      SnakeOfNoUpper(None, x);
    }
  }

  /** The normal forms are exactly the names without upper-case letters. */
  lemma NormalIffNoUpper(x: string)
    ensures NormalizeEventType(x) == x <==> NoUpper(x)
  {
    NormalizeNoUpper(x);
    if NoUpper(x) {
      NoUpperIsNormal(x);
    }
  }

  lemma NormalizeIdempotent(x: string)
    ensures NormalizeEventType(NormalizeEventType(x)) == NormalizeEventType(x)
    ensures InferEventCategory(NormalizeEventType(x)) == InferEventCategory(x)
  {
    NormalizeNoUpper(x);
    NoUpperIsNormal(NormalizeEventType(x));
  }

  /** The characters other than underscores. */
  function Letters(s: string): string {
    if s == "" then "" else (if s[0] == '_' then "" else [s[0]]) + Letters(s[1..])
  }

  lemma {:induction false} LettersConcat(a: string, b: string)
    ensures Letters(a + b) == Letters(a) + Letters(b)
    decreases |a|
  {
    if a == "" {
      assert a + b == b;
    } else {
      assert (a + b)[1..] == a[1..] + b;
      LettersConcat(a[1..], b);
    }
  }

  lemma LettersOfHead(cut: bool, c: char)
    requires c != '_'
    ensures Letters((if cut then "_" else "") + [c]) == [c]
  {
    assert Letters([c]) == [c] + Letters("");
    assert ("_" + [c])[1..] == [c];
  }

  lemma {:induction false} LettersOfSnake(prev: Option<char>, s: string)
    requires '_' !in s
    ensures Letters(Snake(prev, s)) == Lower(s)
    decreases |s|
  {
    if s != "" {
      assert s[0] in s && forall c :: c in s[1..] ==> c in s;
      LettersOfSnake(Some(s[0]), s[1..]);
      LettersConcat((if Cut(prev, s) then "_" else "") + [LowerChar(s[0])], Snake(Some(s[0]), s[1..]));
      LettersOfHead(Cut(prev, s), LowerChar(s[0]));
    }
  }

  lemma {:induction false} LettersOfLower(s: string)
    ensures Letters(Lower(s)) == Lower(Letters(s))
    decreases |s|
  {
    if s != "" {
      LettersOfLower(s[1..]);
      assert Lower(s)[1..] == Lower(s[1..]) && Lower(s)[0] == LowerChar(s[0]);
      LowerConcat(if s[0] == '_' then "" else [s[0]], Letters(s[1..]));
    }
  }

  lemma {:induction false} AllLetters(s: string)
    requires '_' !in s
    ensures Letters(s) == s
    decreases |s|
  {
    if s != "" {
      assert s[0] in s && forall c :: c in s[1..] ==> c in s;
      AllLetters(s[1..]);
    }
  }

  /** Normalising changes case and, in names without underscores, puts some in; nothing is lost, added or moved otherwise. */
  lemma NormalizeKeepsLetters(x: string)
    ensures Letters(NormalizeEventType(x)) == Lower(Letters(x))
    ensures var n := NormalizeEventType(x);
      '_' in x ==> |n| == |x| && forall i :: 0 <= i < |x| ==> n[i] == LowerChar(x[i])
  {
    if '_' in x {
      LettersOfLower(x);
    } else {
      CamelToSnakeIsLocal(x);
      LettersOfSnake(None, x);
      AllLetters(x);
    }
  }

  // ----- the round trip

  /** The rendering of v ends in an upper-case letter. */
  predicate EndsUpper(v: string) {
    v in ACRONYMS || (|v| == 1 && IsLower(v[0]))
  }

  /** The scanner can tell where w starts when v stands in front of it. */
  predicate Separable(v: string, w: string)
    requires v != ""
  {
    && w != "" && IsLower(w[0])
    && if EndsUpper(v) then w !in ACRONYMS && |w| > 1 && IsLower(w[1]) else IsLowerOrDigit(v[|v| - 1])
  }

  predicate SeparableChain(v: string, ws: seq<string>)
    requires v != ""
    decreases |ws|
  {
    ws == [] || (Separable(v, ws[0]) && SeparableChain(ws[0], ws[1..]))
  }

  /** The names that survive printing and scanning. */
  predicate RoundTrips(n: string) {
    var words := Split(n);
    n == "" || (NoUpper(n) && words[0] != "" && SeparableChain(words[0], words[1..]))
  }

  predicate Word(w: string) {
    NoUpper(w) && '_' !in w
  }

  predicate Words(ws: seq<string>) {
    forall w :: w in ws ==> Word(w)
  }

  lemma AcronymLetters(w: string)
    requires w in ACRONYMS
    ensures |w| > 1 && forall c :: c in w ==> IsLower(c)
  {
    assert w == "qa" || w == "ci" || w == "api" || w == "sse" || w == "id";
  }

  lemma RenderWord(w: string)
    requires Word(w) && w != ""
    ensures var r := Render(w);
      |r| == |w| && '_' !in r && r[0] == UpperChar(w[0]) && (w !in ACRONYMS ==> r[1..] == w[1..])
      && (w in ACRONYMS ==> forall c :: c in r ==> IsUpper(c))
      && (IsUpper(r[|r| - 1]) <==> EndsUpper(w)) && (!EndsUpper(w) ==> r[|r| - 1] == w[|w| - 1])
  {
    var r := Render(w);
    if w in ACRONYMS {
      AcronymLetters(w);
    } else {
      assert forall c :: c in w[1..] ==> c in w;
      LowerNoUpper(w[1..]);
      assert r == [UpperChar(w[0])] + w[1..];
    }
    assert forall i :: 0 <= i < |w| ==> w[i] in w;
  }

  lemma Regroup(head: string, w: string, tail: string)
    requires w != ""
    ensures head + [w[0]] + (w[1..] + tail) == head + w + tail
  {
    assert w == [w[0]] + w[1..];
  }

  lemma {:induction false} SkipNoUpper(prev: Option<char>, q: string, rest: string)
    requires NoUpper(q)
    ensures Snake(prev, q + rest) == q + Snake(if q == "" then prev else Some(q[|q| - 1]), rest)
    decreases |q|
  {
    if q == "" {
      assert q + rest == rest;
    } else {
      assert q[0] in q && forall c :: c in q[1..] ==> c in q;
      assert (q + rest)[1..] == q[1..] + rest;
      SkipNoUpper(Some(q[0]), q[1..], rest);
      Regroup("", q, Snake(Some(q[|q| - 1]), rest));
    }
  }

  lemma UpperUnfold(q: string, rest: string)
    requires q != "" && IsLower(q[0])
    ensures var t := Upper(q) + rest;
      t[0] == UpperChar(q[0]) && t[1..] == Upper(q[1..]) + rest && LowerChar(t[0]) == q[0] && IsUpper(t[0])
  {
  }

  /** Inside an upper-case run nothing is cut, unless a lower-case letter follows it. */
  lemma {:induction false} SkipUpperRun(prev: char, q: string, rest: string)
    requires IsUpper(prev) && (forall c :: c in q ==> IsLower(c)) && (rest != "" ==> !IsLower(rest[0]))
    ensures Snake(Some(prev), Upper(q) + rest) == q + Snake(Some(if q == "" then prev else UpperChar(q[|q| - 1])), rest)
    decreases |q|
  {
    if q == "" {
      assert Upper(q) + rest == rest;
    } else {
      assert q[0] in q && forall c :: c in q[1..] ==> c in q;
      UpperUnfold(q, rest);
      var t := Upper(q) + rest;
      UncutInRun(prev, q, rest);
      SkipUpperRun(t[0], q[1..], rest);
      Regroup("", q, Snake(Some(UpperChar(q[|q| - 1])), rest));
    }
  }

  lemma UncutInRun(prev: char, q: string, rest: string)
    requires IsUpper(prev) && q != "" && (forall c :: c in q ==> IsLower(c)) && (rest != "" ==> !IsLower(rest[0]))
    ensures !Cut(Some(prev), Upper(q) + rest)
  {
    if |q| > 1 {
      assert q[1] in q;
    }
  }

  /** Scanning r after its first letter, in front of rest, gives w after its first letter. */
  predicate TailScans(w: string, r: string, rest: string) {
    |r| == |w| > 0 && Snake(Some(r[0]), r[1..] + rest) == w[1..] + Snake(Some(r[|r| - 1]), rest)
  }

  lemma TailOfAcronym(w: string, rest: string)
    requires w in ACRONYMS && (rest != "" ==> !IsLower(rest[0]))
    ensures TailScans(w, Upper(w), rest)
  {
    AcronymLetters(w);
    var r := Upper(w);
    assert w[0] in w && (forall c :: c in w[1..] ==> c in w) && r[1..] == Upper(w[1..]);
    SkipUpperRun(r[0], w[1..], rest);
  }

  lemma TailOfCapitalized(w: string, rest: string)
    requires Word(w) && w != ""
    ensures TailScans(w, Capitalize(w), rest)
  {
    var r := Capitalize(w);
    assert forall c :: c in w[1..] ==> c in w;
    LowerNoUpper(w[1..]);
    assert r[1..] == w[1..];
    SkipNoUpper(Some(r[0]), w[1..], rest);
  }

  lemma TailOfRendered(w: string, rest: string)
    requires Word(w) && w != "" && (rest != "" ==> !IsLower(rest[0]))
    ensures TailScans(w, Render(w), rest)
  {
    if w in ACRONYMS {
      TailOfAcronym(w, rest);
    } else {
      TailOfCapitalized(w, rest);
    }
  }

  lemma SnakeOfHead(prev: Option<char>, r: string, w: string, rest: string, tail: string)
    requires r != "" && |r| == |w| && LowerChar(r[0]) == w[0]
    requires Snake(Some(r[0]), r[1..] + rest) == w[1..] + tail
    ensures Snake(prev, r + rest) == (if Cut(prev, r + rest) then "_" else "") + w + tail
  {
    assert (r + rest)[1..] == r[1..] + rest;
    Regroup(if Cut(prev, r + rest) then "_" else "", w, tail);
  }

  lemma SnakeOfFirst(r: string, w: string, rest: string, tail: string)
    requires r != "" && |r| == |w| && LowerChar(r[0]) == w[0]
    requires Snake(Some(r[0]), r[1..] + rest) == w[1..] + tail
    ensures Snake(None, r + rest) == w + tail
  {
    SnakeOfHead(None, r, w, rest, tail);
    assert "" + w + tail == w + tail;
  }

  lemma SnakeOfRendered(prev: Option<char>, w: string, rest: string)
    requires Word(w) && w != "" && (rest != "" ==> !IsLower(rest[0]))
    ensures var r := Render(w);
      |r| == |w| && Snake(prev, r + rest) == (if Cut(prev, r + rest) then "_" else "") + w + Snake(Some(r[|r| - 1]), rest)
  {
    RenderWord(w);
    TailOfRendered(w, rest);
    var r := Render(w);
    assert w[0] in w;
    SnakeOfHead(prev, r, w, rest, Snake(Some(r[|r| - 1]), rest));
  }

  /** After v, the scanner cuts in front of w exactly when the two are separable. */
  lemma CutIffSeparable(v: string, w: string, rest: string)
    requires Word(v) && v != "" && Word(w) && w != "" && (rest != "" ==> !IsLower(rest[0]))
    ensures |Render(v)| == |v| && (Cut(Some(Render(v)[|v| - 1]), Render(w) + rest) <==> Separable(v, w))
  {
    RenderWord(v);
    RenderWord(w);
    var r := Render(w);
    assert w[0] in w && v[|v| - 1] in v && r[0] in r;
    if |w| > 1 {
      assert w[1] in w && r[1] in r && r[1..][0] == r[1] && w[1..][0] == w[1];
    } else {
      if w in ACRONYMS {
        AcronymLetters(w);
      }
    }
  }

  lemma {:induction false} CamelShape(ws: seq<string>)
    requires Words(ws)
    ensures '_' !in Camel(ws) && (Camel(ws) != "" ==> !IsLower(Camel(ws)[0]))
    decreases |ws|
  {
    if ws != [] {
      assert Word(ws[0]) && forall w :: w in ws[1..] ==> w in ws;
      CamelShape(ws[1..]);
      if ws[0] != "" {
        RenderWord(ws[0]);
      }
    }
  }

  lemma SnakeShape(prev: Option<char>, s: string)
    requires '_' !in s
    ensures Tidy(Snake(prev, s)) && (prev.None? && s != "" ==> Snake(prev, s)[0] != '_')
  {
    InsertTidy(prev, s);
    LowerInsert(prev, s);
    var r := Insert(Cut, prev, s);
    forall i | 0 <= i < |r|
      ensures Snake(prev, s)[i] == '_' <==> r[i] == '_'
    {
    }
    if s != "" {
      assert s[0] in s;
    }
  }

  /** An empty part leaves no trace in the camel-case name, so its underscore cannot come back. */
  lemma EmptyPartIsLost(prev: Option<char>, s: string, rest: seq<string>)
    requires '_' !in s
    ensures Snake(prev, s) != "_" + Suffixes(rest)
  {
    SnakeShape(prev, s);
    var y := "_" + Suffixes(rest);
    if rest != [] {
      assert y[0] == '_' && y[0 + 1] == '_';
    }
  }

  lemma CamelUnfold(w: string, rest: seq<string>)
    ensures Camel([w] + rest) == (if w == "" then "" else Render(w)) + Camel(rest)
    ensures Suffixes([w] + rest) == "_" + w + Suffixes(rest)
  {
    assert ([w] + rest)[1..] == rest;
  }

  lemma EmptyPartBreaks(v: string, rest: seq<string>)
    requires Word(v) && v != "" && Words(rest) && |Render(v)| == |v|
    ensures Snake(Some(Render(v)[|v| - 1]), Camel([""] + rest)) != Suffixes([""] + rest)
  {
    CamelShape(rest);
    CamelUnfold("", rest);
    assert "" + Camel(rest) == Camel(rest) && "_" + "" + Suffixes(rest) == "_" + Suffixes(rest);
    EmptyPartIsLost(Some(Render(v)[|v| - 1]), Camel(rest), rest);
  }

  lemma {:induction false} TailExact(v: string, ws: seq<string>)
    requires Word(v) && v != "" && Words(ws)
    ensures |Render(v)| == |v|
    ensures Snake(Some(Render(v)[|v| - 1]), Camel(ws)) == Suffixes(ws) <==> SeparableChain(v, ws)
    decreases |ws|
  {
    RenderWord(v);
    if ws != [] {
      var w, rest := ws[0], ws[1..];
      assert Word(w) && forall x :: x in rest ==> x in ws;
      assert ws == [w] + rest;
      if w == "" {
        EmptyPartBreaks(v, rest);
      } else {
        TailExact(w, rest);
        CamelUnfold(w, rest);
        TailStep(v, w, rest);
      }
    }
  }

  lemma TailStep(v: string, w: string, rest: seq<string>)
    requires Word(v) && v != "" && Word(w) && w != "" && Words(rest)
    ensures |Render(v)| == |v| && |Render(w)| == |w|
    ensures Snake(Some(Render(v)[|v| - 1]), Render(w) + Camel(rest)) == "_" + w + Suffixes(rest)
       <==> Separable(v, w) && Snake(Some(Render(w)[|w| - 1]), Camel(rest)) == Suffixes(rest)
  {
    CamelShape(rest);
    CutIffSeparable(v, w, Camel(rest));
    SnakeOfRendered(Some(Render(v)[|v| - 1]), w, Camel(rest));
    var x := Snake(Some(Render(w)[|w| - 1]), Camel(rest));
    Glue(Separable(v, w), w, x, Suffixes(rest));
  }

  lemma Glue(cut: bool, w: string, x: string, y: string)
    requires w != "" && '_' !in w
    ensures (if cut then "_" else "") + w + x == "_" + w + y <==> cut && x == y
  {
    assert w[0] in w;
    SameHead("_" + w, x, y);
    assert ("" + w + x)[0] == w[0] && ("_" + w + y)[0] == '_';
  }

  lemma {:induction false} PartsOf(parts: seq<string>, s: string)
    requires |parts| > 0 && Join(parts) == s
    ensures forall p, c :: p in parts && c in p ==> c in s
    decreases |parts|
  {
    if |parts| > 1 {
      var rest := parts[1..];
      PartsOf(rest, Join(rest));
      assert Suffixes(rest) == "_" + Join(rest);
      assert s == parts[0] + "_" + Join(rest);
      assert forall p :: p in parts ==> p == parts[0] || p in rest;
    } else {
      assert forall p :: p in parts ==> p == parts[0];
    }
  }

  lemma WordsExact(words: seq<string>)
    requires |words| > 0 && Words(words)
    ensures Snake(None, Camel(words)) == Join(words)
       <==> Join(words) == "" || (words[0] != "" && SeparableChain(words[0], words[1..]))
  {
    var w, rest := words[0], words[1..];
    CamelShape(words);
    CamelShape(rest);
    if w == "" {
      SnakeShape(None, Camel(words));
      assert Camel([]) == "" && Suffixes([]) == "";
    } else {
      HeadExact(w, rest);
    }
  }

  lemma HeadScan(w: string, rest: string)
    requires Word(w) && w != "" && (rest != "" ==> !IsLower(rest[0]))
    ensures |Render(w)| == |w| && Snake(None, Render(w) + rest) == w + Snake(Some(Render(w)[|w| - 1]), rest)
  {
    RenderWord(w);
    TailOfRendered(w, rest);
    var r := Render(w);
    assert w[0] in w;
    SnakeOfFirst(r, w, rest, Snake(Some(r[|r| - 1]), rest));
  }

  lemma HeadExact(w: string, rest: seq<string>)
    requires Word(w) && w != "" && Words(rest)
    ensures Snake(None, Render(w) + Camel(rest)) == w + Suffixes(rest) <==> SeparableChain(w, rest)
  {
    CamelShape(rest);
    HeadScan(w, Camel(rest));
    TailExact(w, rest);
    SameHead(w, Snake(Some(Render(w)[|w| - 1]), Camel(rest)), Suffixes(rest));
  }

  lemma SplitWords(n: string)
    requires NoUpper(n)
    ensures Words(Split(n))
  {
    var parts := Split(n);
    PartsOf(parts, n);
    forall w | w in parts
      ensures Word(w)
    {
    }
  }

  lemma NormalizeOfCamel(words: seq<string>)
    requires Words(words)
    ensures NormalizeEventType(Camel(words)) == Snake(None, Camel(words))
  {
    CamelShape(words);
    CamelToSnakeIsLocal(Camel(words));
  }

  /** Printing in camel case and scanning back returns exactly the names of RoundTrips. */
  lemma RoundTripExact(n: string)
    ensures NormalizeEventType(SnakeToCamel(n)) == n <==> RoundTrips(n)
  {
    NormalizeNoUpper(SnakeToCamel(n));
    if NoUpper(n) {
      var words := Split(n);
      SplitWords(n);
      NormalizeOfCamel(words);
      WordsExact(words);
    }
  }

  lemma {:induction false} SplitJoin(parts: seq<string>)
    requires |parts| > 0 && forall p :: p in parts ==> '_' !in p
    ensures Split(Join(parts)) == parts
    decreases |parts|, |parts[0]|
  {
    var p, rest := parts[0], parts[1..];
    assert p in parts && forall q :: q in rest ==> q in parts;
    var s := Join(parts);
    if p != "" {
      assert p[0] in p;
      var shorter := [p[1..]] + rest;
      assert s[1..] == Join(shorter);
      SplitJoin(shorter);
      assert [p[0]] + p[1..] == p;
    } else if rest != [] {
      assert s == "_" + Join(rest);
      SplitJoin(rest);
    }
  }

  /** Two acronyms in a row merge when they come back. */
  lemma AdjacentAcronymsMerge(v: string, w: string)
    requires v in ACRONYMS && w in ACRONYMS
    ensures NormalizeEventType(SnakeToCamel(v + "_" + w)) != v + "_" + w
  {
    var words, n := [v, w], v + "_" + w;
    AcronymLetters(v);
    AcronymLetters(w);
    assert Suffixes([w]) == "_" + w + Suffixes([]) && words[1..] == [w];
    assert Join(words) == n;
    SplitJoin(words);
    RoundTripExact(n);
    assert !Separable(v, w);
  }

  /** A lower-case word of letters and digits; a word that is not an acronym has at least two characters. */
  predicate Ordinary(w: string) {
    w != "" && IsLower(w[0]) && (forall c :: c in w ==> IsLowerOrDigit(c)) && (w in ACRONYMS || |w| > 1)
  }

  predicate OrdinaryNext(v: string, w: string) {
    Ordinary(w) && (v in ACRONYMS ==> w !in ACRONYMS && IsLower(w[1]))
  }

  lemma {:induction false} OrdinaryChain(words: seq<string>)
    requires |words| > 0 && forall w :: w in words ==> Ordinary(w)
    requires forall i :: 0 < i < |words| ==> OrdinaryNext(words[i - 1], words[i])
    ensures words[0] != "" && SeparableChain(words[0], words[1..])
    decreases |words|
  {
    assert words[0] in words;
    if |words| > 1 {
      var rest := words[1..];
      assert OrdinaryNext(words[1 - 1], words[1]);
      forall i | 0 < i < |rest|
        ensures OrdinaryNext(rest[i - 1], rest[i])
      {
        assert OrdinaryNext(words[i + 1 - 1], words[i + 1]);
      }
      OrdinaryChain(rest);
      var v := words[0];
      assert v[|v| - 1] in v;
    }
  }

  /** The event names in use: ordinary words, with no acronym, and no digit in second place, right after an acronym. */
  lemma OrdinaryNamesRoundTrip(words: seq<string>)
    requires |words| > 0 && forall w :: w in words ==> Ordinary(w)
    requires forall i :: 0 < i < |words| ==> OrdinaryNext(words[i - 1], words[i])
    ensures NormalizeEventType(SnakeToCamel(Join(words))) == Join(words)
  {
    forall w | w in words
      ensures Word(w)
    {
    }
    SplitJoin(words);
    OrdinaryChain(words);
    WordsExact(words);
    assert words[0] in words;
    NormalizeOfCamel(words);
  }

  // ----- name variants

  lemma {:induction false} CamelNoUpper(ws: seq<string>)
    requires Words(ws)
    ensures NoUpper(Camel(ws)) <==> forall w :: w in ws && w != "" ==> !IsLower(w[0])
    ensures Camel(ws) == "" <==> forall w :: w in ws ==> w == ""
    decreases |ws|
  {
    if ws != [] {
      var w, rest := ws[0], ws[1..];
      assert Word(w) && (forall x :: x in rest ==> x in ws) && forall x :: x in ws ==> x == w || x in rest;
      CamelNoUpper(rest);
      var r := if w == "" then "" else Render(w);
      assert Camel(ws) == r + Camel(rest);
      assert NoUpper(Camel(ws)) <==> NoUpper(r) && NoUpper(Camel(rest));
      if w != "" {
        RenderWord(w);
        RenderNoUpper(w);
        assert w in ws && r != "";
      }
    }
  }

  lemma RenderNoUpper(w: string)
    requires Word(w) && w != ""
    ensures NoUpper(Render(w)) <==> !IsLower(w[0])
  {
    RenderWord(w);
    var r := Render(w);
    assert w[0] in w && r[0] in r;
    if w !in ACRONYMS {
      assert r == [r[0]] + w[1..];
      assert forall c :: c in w[1..] ==> c in w;
    } else {
      AcronymLetters(w);
    }
  }

  /** Several parts, none of which starts with a letter: printing such a name only drops its underscores. */
  predicate LetterlessParts(n: string) {
    '_' in n && (exists p :: p in Split(n) && p != "") && forall p :: p in Split(n) && p != "" ==> !IsLower(p[0])
  }

  predicate Ambiguous(r: string) {
    LetterlessParts(NormalizeEventType(r))
  }

  lemma SplitWhole(n: string)
    requires '_' !in n
    ensures Split(n) == [n]
  {
    SplitJoin([n]);
    assert Join([n]) == n;
  }

  lemma NonLetterNoAcronym(w: string)
    requires w != "" && !IsLower(w[0])
    ensures w !in ACRONYMS
  {
    if w in ACRONYMS {
      AcronymLetters(w);
    }
  }

  lemma CamelVariantNormal(n: string)
    requires NoUpper(n) && n != ""
    ensures SnakeToCamel(n) != "" && NoUpper(SnakeToCamel(n)) && SnakeToCamel(n) != n <==> LetterlessParts(n)
  {
    SplitWords(n);
    CamelNoUpper(Split(n));
    CamelShape(Split(n));
    var c := SnakeToCamel(n);
    if '_' !in n {
      SplitWhole(n);
      assert c == Render(n) + Camel([]) == Render(n);
      RenderWord(n);
      RenderNoUpper(n);
      if NoUpper(c) {
        NonLetterNoAcronym(n);
        assert n == [n[0]] + n[1..] && c == [c[0]] + c[1..];
      }
    }
  }

  /** Of the variants of a requested type, the ones a stored type can equal. */
  lemma VariantsExact(r: string, stored: string)
    requires NoUpper(stored)
    ensures stored in EventTypeVariants(r) <==>
      stored != "" && (stored == NormalizeEventType(r) || (Ambiguous(r) && stored == SnakeToCamel(NormalizeEventType(r))))
  {
    var n := NormalizeEventType(r);
    NormalizeNoUpper(r);
    if stored == r {
      NoUpperIsNormal(r);
    }
    if n != "" {
      CamelVariantNormal(n);
    }
  }

  lemma CamelOfEmpty()
    ensures SnakeToCamel("") == ""
  {
    assert Split("") == [""] && Camel([""]) == "" + Camel([]);
  }

  /** A stored name with upper-case letters, from before names were normalised, is found when asked for as it is or as the printed form. */
  lemma LegacyVariantsExact(r: string, stored: string)
    requires !NoUpper(stored)
    ensures stored in EventTypeVariants(r) <==> stored == r || stored == SnakeToCamel(NormalizeEventType(r))
  {
    NormalizeNoUpper(r);
    CamelOfEmpty();
  }

  /** Whatever the variants of a request find means the same type exactly when its normal form survives printing and scanning. */
  lemma VariantsMeanTheSame(r: string)
    ensures var n := NormalizeEventType(r);
      (forall v :: v in EventTypeVariants(r) ==> NormalizeEventType(v) == n) <==> SnakeToCamel(n) == "" || RoundTrips(n)
  {
    var n := NormalizeEventType(r);
    NormalizeIdempotent(r);
    RoundTripExact(n);
    CamelOfEmpty();
    if SnakeToCamel(n) != "" {
      assert n != "" && SnakeToCamel(n) in EventTypeVariants(r);
    }
  }

  /** Of words of two or more letters, the printer shouts exactly these five. */
  lemma ShoutsAcronyms(w: string)
    requires |w| > 1 && forall c :: c in w ==> IsLower(c)
    ensures (forall c :: c in Render(w) ==> IsUpper(c)) <==> w == "qa" || w == "ci" || w == "api" || w == "sse" || w == "id"
  {
    if w in ACRONYMS {
      RenderWord(w);
    } else {
      RenderWord(w);
      assert w[1] in w && Render(w)[1] == Render(w)[1..][0] == w[1] && Render(w)[1] in Render(w);
    }
  }
}
