/**
 Concealing secrets in the configuration tree: one place refuses to look up
 a concealed key, another deletes what a selector names before the tree is shown.
 */
module ConfigScrub {

  /** A decoded JSON document; everything that is not an object is a leaf. */
  datatype Json = Leaf(text: string) | Obj(fields: map<string, Json>)

  type Object = map<string, Json>

  /** Case folding: one representative for all the characters that differ only in case. */
  type Fold = char -> char

  /** Equality up to case. */
  predicate EqualFold(fold: Fold, a: string, b: string) {
    |a| == |b| && forall i :: 0 <= i < |a| ==> fold(a[i]) == fold(b[i])
  }

  const WILDCARD := "*"

  predicate MatchesPart(fold: Fold, glob: string, part: string) {
    glob == WILDCARD || EqualFold(fold, part, glob)
  }

  /** The parts and the patterns match as far as both go. */
  predicate Blocked(fold: Fold, key: seq<string>, glob: seq<string>) {
    forall i :: 0 <= i < |key| && i < |glob| ==> MatchesPart(fold, glob[i], key[i])
  }

  /** Blocking, told by the characters of the parts. */
  lemma BlockedByCharacters(fold: Fold, key: seq<string>, glob: seq<string>)
    ensures Blocked(fold, key, glob) <==>
            forall i :: 0 <= i < |key| && i < |glob| && glob[i] != "*" ==>
              |key[i]| == |glob[i]| && forall j :: 0 <= j < |key[i]| ==> fold(key[i][j]) == fold(glob[i][j])
  {
    forall i | 0 <= i < |key| && i < |glob|
      ensures MatchesPart(fold, glob[i], key[i]) <==> glob[i] == "*" || EqualFold(fold, key[i], glob[i])
    {}
  }

  /** The parts differ in the case of their characters only. */
  ghost predicate SameButCase(fold: Fold, a: seq<string>, b: seq<string>) {
    && |a| == |b|
    && forall i :: 0 <= i < |a| ==>
         |a[i]| == |b[i]| && forall j :: 0 <= j < |a[i]| ==> fold(a[i][j]) == fold(b[i][j])
  }

  /** Whether a key is blocked does not depend on the case it is written in. */
  lemma CaseDoesNotMatter(fold: Fold, a: seq<string>, b: seq<string>, glob: seq<string>)
    requires SameButCase(fold, a, b)
    ensures Blocked(fold, a, glob) <==> Blocked(fold, b, glob)
  {
    forall i | 0 <= i < |a| && i < |glob|
      ensures MatchesPart(fold, glob[i], a[i]) <==> MatchesPart(fold, glob[i], b[i])
    {}
  }

  function Split(key: string): (parts: seq<string>)
    ensures |parts| > 0
  {
    if key == "" then [""]
    else
      var rest := Split(key[1..]);
      if key[0] == '.' then [""] + rest else [[key[0]] + rest[0]] + rest[1..]
  }

  function Join(parts: seq<string>): string
    requires |parts| > 0
  {
    if |parts| == 1 then parts[0] else parts[0] + "." + Join(parts[1..])
  }

  /** A character that is not a dot goes to the front of the first part. */
  lemma {:induction false} JoinPrepends(c: char, parts: seq<string>)
    requires |parts| > 0
    ensures Join([[c] + parts[0]] + parts[1..]) == [c] + Join(parts)
  {
    var longer := [[c] + parts[0]] + parts[1..];
    assert longer[1..] == parts[1..] && longer[0] == [c] + parts[0];
    if |parts| > 1 {
      Associates([c], parts[0], ".", Join(parts[1..]));
    }
  }

  lemma Associates(a: string, b: string, c: string, d: string)
    ensures a + b + c + d == a + (b + c + d)
  {
  }

  /** Splitting loses nothing: the parts join to the key. */
  lemma {:induction false} SplitJoins(key: string)
    ensures Join(Split(key)) == key
  {
    if key != "" {
      var rest := Split(key[1..]);
      SplitJoins(key[1..]);
      assert key == [key[0]] + key[1..];
      if key[0] == '.' {
        assert ([""] + rest)[1..] == rest;
        assert Join([""] + rest) == "" + "." + Join(rest);
      } else {
        JoinPrepends(key[0], rest);
      }
    }
  }

  /** The parts are free of dots, so no part is split further. */
  lemma {:induction false} PartsHoldNoDot(key: string)
    ensures forall i :: 0 <= i < |Split(key)| ==> '.' !in Split(key)[i]
  {
    if key != "" {
      PartsHoldNoDot(key[1..]);
    }
  }

  lemma {:induction false} SplitFirst(first: string, rest: string)
    requires '.' !in first
    ensures Split(first) == [first]
    ensures Split(first + "." + rest) == [first] + Split(rest)
  {
    var key := first + "." + rest;
    if first == "" {
      assert key[1..] == rest;
    } else {
      SplitFirst(first[1..], rest);
      assert key[1..] == first[1..] + "." + rest;
      assert first == [first[0]] + first[1..];
    }
  }

  /** Joining loses nothing either, so keys and lists of parts without dots are the same thing. */
  lemma {:induction false} JoinSplits(parts: seq<string>)
    requires |parts| > 0 && forall i :: 0 <= i < |parts| ==> '.' !in parts[i]
    ensures Split(Join(parts)) == parts
  {
    if |parts| == 1 {
      SplitFirst(parts[0], "");
    } else {
      JoinSplits(parts[1..]);
      SplitFirst(parts[0], Join(parts[1..]));
    }
  }

  method MatchesGlobPrefix(fold: Fold, key: string, glob: seq<string>) returns (matches: bool)
    ensures matches <==> Blocked(fold, Split(key), glob)
    ensures matches <==>
            var k := Split(key);
            forall i :: 0 <= i < |k| && i < |glob| && glob[i] != "*" ==>
              |k[i]| == |glob[i]| && forall j :: 0 <= j < |k[i]| ==> fold(k[i][j]) == fold(glob[i][j])
  {
    var k := Split(key);
    BlockedByCharacters(fold, k, glob);
    for i := 0 to |glob|
      invariant forall j :: 0 <= j < i && j < |k| ==> MatchesPart(fold, glob[j], k[j])
    {
      if i >= |k| {
        break;
      }
      if glob[i] == WILDCARD {
        continue;
      }
      if !EqualFold(fold, k[i], glob[i]) {
        return false;
      }
    }
    return true;
  }

  /* ----- Looking up a key ----- */

  /** A failed lookup tells after how many parts it failed, and why. */
  datatype Answer = Found(value: Json) | NotAMap(depth: nat) | NotFound(depth: nat)

  function Deeper(a: Answer): Answer {
    match a
    case Found(_) => a
    case NotAMap(d) => NotAMap(d + 1)
    case NotFound(d) => NotFound(d + 1)
  }

  function Lookup(v: Json, key: seq<string>): Answer
    decreases |key|
  {
    if key == [] then Found(v)
    else if v.Leaf? then NotAMap(0)
    else if key[0] !in v.fields then NotFound(0)
    else Deeper(Lookup(v.fields[key[0]], key[1..]))
  }

  /** A failed lookup failed there: at a leaf, or at an object without the next part. */
  lemma {:induction false} LookupExplains(v: Json, key: seq<string>)
    ensures var a := Lookup(v, key);
            && (a.NotAMap? ==>
                  a.depth < |key| && Lookup(v, key[..a.depth]).Found? && Lookup(v, key[..a.depth]).value.Leaf?)
            && (a.NotFound? ==>
                  && a.depth < |key| && Lookup(v, key[..a.depth]).Found?
                  && Lookup(v, key[..a.depth]).value.Obj?
                  && key[a.depth] !in Lookup(v, key[..a.depth]).value.fields)
    decreases |key|
  {
    var a := Lookup(v, key);
    if key != [] && v.Obj? && key[0] in v.fields {
      LookupExplains(v.fields[key[0]], key[1..]);
      if !a.Found? {
        assert key[..a.depth][1..] == key[1..][..a.depth - 1];
      }
    }
  }

  /** A lookup finds what the last part names in what the parts before it find. */
  lemma {:induction false} LookupDescends(v: Json, key: seq<string>, part: string)
    requires Lookup(v, key).Found?
    ensures var w := Lookup(v, key).value;
            Lookup(v, key + [part]) ==
            if w.Leaf? then NotAMap(|key|) else if part in w.fields then Found(w.fields[part]) else NotFound(|key|)
    decreases |key|
  {
    var longer := key + [part];
    if key == [] {
      assert longer[1..] == [];
    } else {
      assert longer[1..] == key[1..] + [part];
      LookupDescends(v.fields[key[0]], key[1..], part);
    }
  }

  /* ----- Scrubbing ----- */

  /** What is left of a matched value: nothing of a leaf, the scrubbed object of an object. */
  function Scrub(fold: Fold, m: Object, sel: seq<string>): Object
    decreases |sel|
  {
    if sel == [] then map[]
    else
      map k | k in m && (MatchesPart(fold, sel[0], k) ==> m[k].Obj?) ::
        if MatchesPart(fold, sel[0], k) then Obj(Scrub(fold, m[k].fields, sel[1..])) else m[k]
  }

  /**
   What Go passes where any value is expected: nothing, or a nil map, which
   is a value with a type and so not equal to nil.
   */
  datatype Any = NilAny | NilMap

  datatype Scrubbed = Deleted | Kept(value: Json) | KeyMissing

  method ScrubValueInternal(v: Any, okIfMissing: bool) returns (r: Scrubbed)
    ensures r == if v.NilAny? && !okIfMissing then KeyMissing else Deleted
  {
    if v.NilAny? && !okIfMissing {
      return KeyMissing;
    }
    return Deleted;
  }

  /** A leaf is handed on as the nil map that the failed type assertion leaves behind. */
  method ScrubEither(fold: Fold, u: Json, sel: seq<string>, okIfMissing: bool) returns (r: Scrubbed)
    ensures r == if u.Obj? then Kept(Obj(Scrub(fold, u.fields, sel))) else Deleted
    decreases |sel|, 1
  {
    if u.Obj? {
      var m := ScrubMapInternal(fold, u.fields, sel, okIfMissing);
      return m;
    }
    r := ScrubValueInternal(NilMap, okIfMissing);
  }

  /**
   Fills a new map, ranging over the old one in any order. It never reports a
   missing key, not even when `okIfMissing` is false.
   */
  method ScrubMapInternal(fold: Fold, m: Object, sel: seq<string>, okIfMissing: bool) returns (r: Scrubbed)
    ensures r == Kept(Obj(Scrub(fold, m, sel)))
    decreases |sel|, 0
  {
    if sel == [] {
      return Kept(Obj(map[]));
    }
    var n: Object := map[];
    var todo := m.Keys;
    while todo != {}
      invariant todo <= m.Keys
      invariant forall k :: k in n <==> k in Scrub(fold, m, sel) && k !in todo
      invariant forall k :: k in n ==> n[k] == Scrub(fold, m, sel)[k]
      decreases todo
    {
      var k :| k in todo;
      todo := todo - {k};
      if sel[0] == WILDCARD || EqualFold(fold, k, sel[0]) {
        var u := ScrubEither(fold, m[k], sel[1..], okIfMissing);
        if u.KeyMissing? {
          return KeyMissing;
        }
        if u.Kept? {
          n := n[k := u.value];
        }
      } else {
        n := n[k := m[k]];
      }
    }
    assert n == Scrub(fold, m, sel);
    return Kept(Obj(n));
  }

  lemma {:induction false} ScrubIdempotent(fold: Fold, m: Object, sel: seq<string>)
    ensures Scrub(fold, Scrub(fold, m, sel), sel) == Scrub(fold, m, sel)
    decreases |sel|
  {
    if sel != [] {
      forall k | k in m && m[k].Obj?
        ensures var left := Scrub(fold, m[k].fields, sel[1..]); Scrub(fold, left, sel[1..]) == left
      {
        ScrubIdempotent(fold, m[k].fields, sel[1..]);
      }
    }
  }

  lemma BlockedTail(fold: Fold, key: seq<string>, sel: seq<string>)
    requires key != [] && sel != []
    ensures Blocked(fold, key, sel) <==> MatchesPart(fold, sel[0], key[0]) && Blocked(fold, key[1..], sel[1..])
  {
  }

  /** What a lookup in the scrubbed tree answers to a key that is not blocked. */
  ghost function ScrubbedAnswer(fold: Fold, key: seq<string>, sel: seq<string>, a: Answer): Answer {
    if FailsAtDeleted(fold, key, sel, a) then NotFound(a.depth - 1) else a
  }

  /**
   A key that is not blocked gets the same answer before and after scrubbing. Only
   the reason of a failure can differ: a leaf on the way that was deleted is missing
   where it was not an object before.
   */
  lemma {:induction false} UnblockedAnswersAgree(fold: Fold, m: Object, sel: seq<string>, key: seq<string>)
    requires !Blocked(fold, key, sel)
    ensures Lookup(Obj(Scrub(fold, m, sel)), key) == ScrubbedAnswer(fold, key, sel, Lookup(Obj(m), key))
    decreases |sel|
  {
    BlockedTail(fold, key, sel);
    if key[0] in m && MatchesPart(fold, sel[0], key[0]) {
      var v := m[key[0]];
      assert key[1..] != [];
      if v.Obj? {
        UnblockedAnswersAgree(fold, v.fields, sel[1..], key[1..]);
        var a := Lookup(v, key[1..]);
        if a.NotAMap? && a.depth < |key| {
          assert key[..a.depth + 1][1..] == key[1..][..a.depth];
          BlockedTail(fold, key[..a.depth + 1], sel);
        }
      } else {
        assert Blocked(fold, key[..1], sel);
      }
    } else if key[0] in m {
      var a := Lookup(m[key[0]], key[1..]);
      if a.NotAMap? && a.depth < |key| {
        BlockedTail(fold, key[..a.depth + 1], sel);
      }
    }
  }

  /** The lookup fails at a leaf that scrubbing deletes. */
  predicate FailsAtDeleted(fold: Fold, key: seq<string>, sel: seq<string>, a: Answer) {
    a.NotAMap? && 0 < a.depth <= |key| && Blocked(fold, key[..a.depth], sel)
  }

  /** The two answers are the same exactly when the lookup does not fail at a deleted leaf. */
  lemma AnswersAgreeIff(fold: Fold, m: Object, sel: seq<string>, key: seq<string>)
    requires !Blocked(fold, key, sel)
    ensures Lookup(Obj(Scrub(fold, m, sel)), key) == Lookup(Obj(m), key) <==>
            !FailsAtDeleted(fold, key, sel, Lookup(Obj(m), key))
  {
    UnblockedAnswersAgree(fold, m, sel, key);
  }

  /** A key that is not blocked but whose failed lookup is explained differently. */
  lemma ReasonChangesExample(fold: Fold)
    requires fold('b') != fold('c')
    ensures var m, sel, key := map["a" := Leaf("x")], ["a", "b"], ["a", "c"];
            && !Blocked(fold, key, sel)
            && Lookup(Obj(m), key) == NotAMap(1)
            && Lookup(Obj(Scrub(fold, m, sel)), key) == NotFound(0)
  {
    var m, sel, key := map["a" := Leaf("x")], ["a", "b"], ["a", "c"];
    assert !MatchesPart(fold, sel[1], key[1]) by { assert "c"[0] == 'c' && "b"[0] == 'b'; }
    assert Lookup(m["a"], key[1..]) == NotAMap(0);
    assert MatchesPart(fold, sel[0], "a");
  }

  /** The leaf at the end of a path, if that is what is there. */
  ghost predicate LeafAt(m: Object, path: seq<string>, text: string) {
    Lookup(Obj(m), path) == Found(Leaf(text))
  }

  /**
   Scrubbing agrees with the blocker leaf by leaf: the leaves of the scrubbed
   tree are exactly the leaves whose path is not blocked.
   */
  lemma {:induction false} LeavesLeftAreUnblocked(
    fold: Fold, m: Object, sel: seq<string>, path: seq<string>, text: string)
    ensures LeafAt(Scrub(fold, m, sel), path, text) <==> LeafAt(m, path, text) && !Blocked(fold, path, sel)
    decreases |sel|
  {
    if path != [] && sel != [] {
      BlockedTail(fold, path, sel);
      if path[0] in m && m[path[0]].Obj? && MatchesPart(fold, sel[0], path[0]) {
        LeavesLeftAreUnblocked(fold, m[path[0]].fields, sel[1..], path[1..], text);
      } else if path[0] in m && MatchesPart(fold, sel[0], path[0]) {
        assert path[0] !in Scrub(fold, m, sel);
        assert Lookup(Obj(Scrub(fold, m, sel)), path) == NotFound(0);
        if |path| == 1 {
          assert Blocked(fold, path[1..], sel[1..]);
        } else {
          assert Lookup(m[path[0]], path[1..]) == NotAMap(0);
        }
      }
    }
  }

  /** Nothing is left below a path that a whole selector matches, but for an emptied object. */
  lemma {:induction false} NothingBelowSelected(fold: Fold, m: Object, sel: seq<string>, path: seq<string>)
    requires |path| >= |sel| && Blocked(fold, path, sel)
    ensures var a := Lookup(Obj(Scrub(fold, m, sel)), path); a.Found? ==> |path| == |sel| && a.value == Obj(map[])
    decreases |sel|
  {
    if sel != [] {
      BlockedTail(fold, path, sel);
      if path[0] in m && m[path[0]].Obj? {
        NothingBelowSelected(fold, m[path[0]].fields, sel[1..], path[1..]);
      }
    }
  }

  /** The order in which two selectors are applied does not matter. */
  lemma {:induction false} ScrubsCommute(fold: Fold, m: Object, a: seq<string>, b: seq<string>)
    ensures Scrub(fold, Scrub(fold, m, a), b) == Scrub(fold, Scrub(fold, m, b), a)
    decreases |a|
  {
    if a != [] && b != [] {
      forall k | k in m && m[k].Obj?
        ensures Scrub(fold, Scrub(fold, m[k].fields, a[1..]), b[1..])
             == Scrub(fold, Scrub(fold, m[k].fields, b[1..]), a[1..])
      {
        ScrubsCommute(fold, m[k].fields, a[1..], b[1..]);
      }
    }
  }

  /** The selectors concealed when the whole configuration is shown. */
  const PRIVATE_KEY := ["Identity", "PrivKey"]
  const AUTHORIZATIONS := ["API", "Authorizations"]
  const PINNING_KEYS := ["Pinning", "RemoteServices", WILDCARD, "API", "Key"]
  const CONCEALED := [PRIVATE_KEY, AUTHORIZATIONS, PINNING_KEYS]

  function ScrubAll(fold: Fold, m: Object, sels: seq<seq<string>>): Object {
    if sels == [] then m else Scrub(fold, ScrubAll(fold, m, sels[..|sels| - 1]), sels[|sels| - 1])
  }

  /** What is shown is exactly what no selector blocks. */
  lemma {:induction false} ShownLeaves(fold: Fold, m: Object, sels: seq<seq<string>>, path: seq<string>, text: string)
    ensures LeafAt(ScrubAll(fold, m, sels), path, text) <==>
            LeafAt(m, path, text) && forall sel :: sel in sels ==> !Blocked(fold, path, sel)
  {
    if sels != [] {
      var init, last := sels[..|sels| - 1], sels[|sels| - 1];
      assert sels == init + [last];
      ShownLeaves(fold, m, init, path, text);
      LeavesLeftAreUnblocked(fold, ScrubAll(fold, m, init), last, path, text);
    }
  }

  /* ----- Showing everything against asking for one key ----- */

  /** Lowering a key and folding a part, as far as the keys of the private key are concerned. */
  datatype Case = Case(fold: Fold, lower: char -> char)

  function Lower(casing: Case, s: string): (t: string)
    ensures |t| == |s|
  {
    seq(|s|, i requires 0 <= i < |s| => casing.lower(s[i]))
  }

  const IDENTITY := "Identity"
  const PRIV_KEY := "PrivKey"
  const LOWER_IDENTITY := "identity"
  const LOWER_PRIV_KEY := "privkey"

  /** Characters that fold to one of `word` lower to the same one of `lowered`. */
  ghost predicate Lowers(casing: Case, word: string, lowered: string) {
    && |word| == |lowered|
    && forall c, i :: 0 <= i < |word| && casing.fold(c) == casing.fold(word[i]) ==> casing.lower(c) == lowered[i]
  }

  /** The dot has no case, and folding and lowering agree on the letters of the two words. */
  ghost predicate CaseOk(casing: Case) {
    && casing.lower('.') == '.'
    && Lowers(casing, IDENTITY, LOWER_IDENTITY)
    && Lowers(casing, PRIV_KEY, LOWER_PRIV_KEY)
  }

  /** The keys the command refuses to look up. */
  predicate Refused(casing: Case, key: string) {
    || Lower(casing, key) == LOWER_IDENTITY
    || Lower(casing, key) == LOWER_IDENTITY + "." + LOWER_PRIV_KEY
    || Blocked(casing.fold, Split(key), PINNING_KEYS)
  }

  lemma LowersPart(casing: Case, part: string, word: string, lowered: string)
    requires Lowers(casing, word, lowered) && EqualFold(casing.fold, part, word)
    ensures Lower(casing, part) == lowered
  {
  }

  lemma LowerConcat(casing: Case, a: string, b: string)
    ensures Lower(casing, a + b) == Lower(casing, a) + Lower(casing, b)
  {
  }

  /** The private key selector's own two keys are refused, longer ones below them are not. */
  lemma PrivateKeyRefusedIffShort(casing: Case, key: string)
    requires CaseOk(casing)
    requires Blocked(casing.fold, Split(key), PRIVATE_KEY) && !Blocked(casing.fold, Split(key), PINNING_KEYS)
    ensures Refused(casing, key) <==> |Split(key)| <= 2
  {
    var p := Split(key);
    SplitJoins(key);
    assert EqualFold(casing.fold, p[0], IDENTITY) by { assert MatchesPart(casing.fold, PRIVATE_KEY[0], p[0]); }
    LowersPart(casing, p[0], IDENTITY, LOWER_IDENTITY);
    if |p| >= 2 {
      assert EqualFold(casing.fold, p[1], PRIV_KEY) by { assert MatchesPart(casing.fold, PRIVATE_KEY[1], p[1]); }
      LowersPart(casing, p[1], PRIV_KEY, LOWER_PRIV_KEY);
      var rest := Join(p[1..]);
      assert key == p[0] + "." + rest && p[1..][0] == p[1];
      if |p| == 2 {
        LowerConcat(casing, p[0] + ".", p[1]);
        LowerConcat(casing, p[0], ".");
        assert Lower(casing, ".") == ".";
      }
    }
  }

  /** A key that starts with a three-letter part is not one of those two. */
  lemma AuthorizationsNotRefused(casing: Case, key: string)
    requires CaseOk(casing)
    requires Blocked(casing.fold, Split(key), AUTHORIZATIONS) && !Blocked(casing.fold, Split(key), PINNING_KEYS)
    ensures !Refused(casing, key)
  {
    var p := Split(key);
    SplitJoins(key);
    assert EqualFold(casing.fold, p[0], "API") by { assert MatchesPart(casing.fold, AUTHORIZATIONS[0], p[0]); }
    if |p| > 1 {
      assert key == p[0] + "." + Join(p[1..]);
      assert key[3] == '.' && Lower(casing, key)[3] == '.';
      assert LOWER_IDENTITY[3] == 'n' && (LOWER_IDENTITY + "." + LOWER_PRIV_KEY)[3] == 'n';
    }
  }

  /**
   Exactly the leaves that showing the configuration conceals but asking for their
   key still gives: those at or below API.Authorizations, and those below an object
   in the place of Identity.PrivKey.
   */
  lemma ConcealedButAnswered(casing: Case, m: Object, key: string, text: string)
    requires CaseOk(casing) && LeafAt(m, Split(key), text)
    ensures !LeafAt(ScrubAll(casing.fold, m, CONCEALED), Split(key), text) && !Refused(casing, key) <==>
            && !Blocked(casing.fold, Split(key), PINNING_KEYS)
            && (|| Blocked(casing.fold, Split(key), AUTHORIZATIONS)
                || (|Split(key)| > 2 && Blocked(casing.fold, Split(key), PRIVATE_KEY)))
  {
    var p := Split(key);
    ShownLeaves(casing.fold, m, CONCEALED, p, text);
    assert CONCEALED[0] == PRIVATE_KEY && CONCEALED[1] == AUTHORIZATIONS && CONCEALED[2] == PINNING_KEYS;
    if !Blocked(casing.fold, p, PINNING_KEYS) {
      if Blocked(casing.fold, p, PRIVATE_KEY) { PrivateKeyRefusedIffShort(casing, key); }
      if Blocked(casing.fold, p, AUTHORIZATIONS) { AuthorizationsNotRefused(casing, key); }
    }
  }
  /* ----- Concealed whatever the case ----- */

  /** A path at or below one of the secrets, as they are usually written; `service` is any name. */
  predicate IsSecret(path: seq<string>, service: string) {
    || ["Identity", "PrivKey"] <= path
    || ["API", "Authorizations"] <= path
    || ["Pinning", "RemoteServices", service, "API", "Key"] <= path
  }

  lemma SecretsAreBlocked(fold: Fold, path: seq<string>, service: string)
    requires IsSecret(path, service)
    ensures exists sel :: sel in CONCEALED && Blocked(fold, path, sel)
  {
    assert CONCEALED[0] == PRIVATE_KEY && CONCEALED[1] == AUTHORIZATIONS && CONCEALED[2] == PINNING_KEYS;
    if ["Identity", "PrivKey"] <= path {
      assert Blocked(fold, path, PRIVATE_KEY);
    } else if ["API", "Authorizations"] <= path {
      assert Blocked(fold, path, AUTHORIZATIONS);
    } else {
      assert Blocked(fold, path, PINNING_KEYS);
    }
  }

  /** A leaf whose path is that of a secret, in whatever case, is never shown. */
  lemma SecretsNeverShown(fold: Fold, m: Object, path: seq<string>, secret: seq<string>, service: string, text: string)
    requires IsSecret(secret, service) && SameButCase(fold, path, secret)
    ensures !LeafAt(ScrubAll(fold, m, CONCEALED), path, text)
  {
    SecretsAreBlocked(fold, secret, service);
    var sel :| sel in CONCEALED && Blocked(fold, secret, sel);
    CaseDoesNotMatter(fold, path, secret, sel);
    ShownLeaves(fold, m, CONCEALED, path, text);
  }

  /** Asking for the key of a remote pinning service, or anything above or below it, is refused in whatever case. */
  lemma PinningKeysRefused(casing: Case, key: string, secret: seq<string>, service: string)
    requires SameButCase(casing.fold, Split(key), secret)
    requires var full := ["Pinning", "RemoteServices", service, "API", "Key"]; full <= secret || secret <= full
    ensures Refused(casing, key)
  {
    assert Blocked(casing.fold, secret, PINNING_KEYS);
    CaseDoesNotMatter(casing.fold, Split(key), secret, PINNING_KEYS);
  }

  /* ----- An example ----- */

  function LowerAscii(c: char): char {
    if 'A' <= c <= 'Z' then c - 'A' + 'a' else c
  }

  const ASCII := Case(LowerAscii, LowerAscii)

  lemma AsciiCaseOk()
    ensures CaseOk(ASCII)
  {
  }

  /** A secret that showing the configuration conceals and asking for its key gives away. */
  lemma ConcealedButAnsweredExample()
    ensures var key, m := Join(AUTHORIZATIONS), map["API" := Obj(map["Authorizations" := Leaf("secret")])];
            && !LeafAt(ScrubAll(ASCII.fold, m, CONCEALED), Split(key), "secret")
            && !Refused(ASCII, key)
            && LeafAt(m, Split(key), "secret")
  {
    var key, m := Join(AUTHORIZATIONS), map["API" := Obj(map["Authorizations" := Leaf("secret")])];
    AsciiCaseOk();
    JoinSplits(AUTHORIZATIONS);
    assert Lookup(m["API"], AUTHORIZATIONS[1..]) == Found(Leaf("secret"));
    assert !MatchesPart(ASCII.fold, PINNING_KEYS[0], AUTHORIZATIONS[0]);
    ConcealedButAnswered(ASCII, m, key, "secret");
  }
}
