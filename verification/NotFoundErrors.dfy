/** Recovering typed not-found errors from the text of a remote error. */
module NotFoundErrors {
  import opened Wrappers

  /** The undefined CID, or a CID that is told apart by `id`. */
  datatype Cid = Undef | Defined(version: nat, id: nat)

  datatype Decoded = Bad | Good(cid: Cid)

  /** How CIDs are written and read; both live outside this model. */
  datatype Codec = Codec(show: Cid -> string, decode: string -> Decoded)

  const KEY := "ipld: could not find "
  const NODE := "node"
  const BREAKS := " \t\n\r\U{000B}\U{000C};\""
  const BLOCKSTORE_KEY := "blockstore: block not found"
  const BASE32 := 'b'

  datatype Error =
    | NotFound(cid: Cid)
    | Wrapped(pre: string, cid: Cid, post: string)
    | BlockstoreNotFound(msg: string)
    | Plain(msg: string)

  /** The text of an IPLD not-found error. */
  function NotFoundText(codec: Codec, c: Cid): string {
    KEY + if c.Undef? then NODE else codec.show(c)
  }

  function Text(codec: Codec, e: Error): string {
    match e
    case NotFound(c) => NotFoundText(codec, c)
    case Wrapped(pre, c, post) => pre + NotFoundText(codec, c) + post
    case BlockstoreNotFound(msg) => msg
    case Plain(msg) => msg
  }

  predicate OccursAt(s: string, pat: string, i: nat) {
    i + |pat| <= |s| && s[i..i + |pat|] == pat
  }

  /** The first place at or after `from` where `pat` occurs, or -1. */
  function IndexFrom(s: string, pat: string, from: nat): (i: int)
    requires from <= |s| + 1
    ensures i == -1 || (from <= i <= |s| && OccursAt(s, pat, i))
    ensures forall j: nat :: from <= j && OccursAt(s, pat, j) ==> 0 <= i <= j
    decreases |s| + 1 - from
  {
    if from > |s| then -1
    else if OccursAt(s, pat, from) then from
    else IndexFrom(s, pat, from + 1)
  }

  function Index(s: string, pat: string): int {
    IndexFrom(s, pat, 0)
  }

  predicate HasPrefix(s: string, pat: string) {
    pat <= s
  }

  /** The length of the text up to the first break character. */
  function BreakIndex(s: string): (n: nat)
    ensures n <= |s|
    ensures forall i :: 0 <= i < n ==> s[i] !in BREAKS
    ensures n < |s| ==> s[n] in BREAKS
  {
    if s == "" || s[0] in BREAKS then 0 else 1 + BreakIndex(s[1..])
  }

  /** The CID text is one that printing a CID can give: version 0, or in base 32. */
  predicate Expected(c: Cid, text: string) {
    c.Defined? && (c.version == 0 || (text != "" && text[0] == BASE32))
  }

  function ParseIpldNotFound(codec: Codec, msg: string): Option<Error> {
    var keyIndex := Index(msg, KEY);
    if keyIndex < 0 then None
    else
      var postKey := msg[keyIndex + |KEY|..];
      if HasPrefix(postKey, NODE) then Some(Rebuilt(msg[..keyIndex], Undef, postKey[|NODE|..]))
      else
        var text := postKey[..BreakIndex(postKey)];
        var decoded := codec.decode(text);
        if decoded.Bad? || !Expected(decoded.cid, text) then None
        else Some(Rebuilt(msg[..keyIndex], decoded.cid, postKey[|text|..]))
  }

  function Rebuilt(pre: string, c: Cid, post: string): Error {
    if |pre| > 0 || |post| > 0 then Wrapped(pre, c, post) else NotFound(c)
  }

  function ParseBlockstoreNotFound(msg: string): Option<Error> {
    if Index(msg, BLOCKSTORE_KEY) < 0 then None else Some(BlockstoreNotFound(msg))
  }

  /** The empty message is no error at all: handled, with nothing in it. */
  function ParseNotFound(codec: Codec, msg: string): Option<Option<Error>> {
    if msg == "" then Some(None)
    else
      match ParseIpldNotFound(codec, msg)
      case Some(e) => Some(Some(e))
      case None =>
        match ParseBlockstoreNotFound(msg)
        case Some(e) => Some(Some(e))
        case None => None
  }

  function ParseWithFallback(codec: Codec, msg: string): Option<Error> {
    match ParseNotFound(codec, msg)
    case Some(e) => e
    case None => Some(Plain(msg))
  }

  /** A CID text that is accepted prints back as itself. */
  ghost predicate PrintsBack(codec: Codec) {
    forall text {:trigger codec.decode(text)} ::
      codec.decode(text).Good? && Expected(codec.decode(text).cid, text) ==> codec.show(codec.decode(text).cid) == text
  }

  /** The text of a CID reads back, in the expected form, and holds no break character. */
  ghost predicate ReadsBack(codec: Codec, c: Cid) {
    var text := codec.show(c);
    && codec.decode(text) == Good(c) && Expected(c, text)
    && !HasPrefix(text, NODE)
    && forall i :: 0 <= i < |text| ==> text[i] !in BREAKS
  }

  lemma SplitAtOccurrence(s: string, pat: string, i: nat)
    requires OccursAt(s, pat, i)
    ensures s == s[..i] + (pat + s[i + |pat|..])
  {
  }

  lemma RebuiltText(codec: Codec, pre: string, c: Cid, post: string)
    ensures Text(codec, Rebuilt(pre, c, post)) == pre + NotFoundText(codec, c) + post
  {
  }

  /** Whenever a message is recognised, the rebuilt error prints exactly that message. */
  lemma {:induction false} RecognisedPrintsBack(codec: Codec, msg: string)
    requires PrintsBack(codec) && ParseIpldNotFound(codec, msg).Some?
    ensures Text(codec, ParseIpldNotFound(codec, msg).value) == msg
  {
    var key, k := KEY, Index(msg, KEY);
    SplitAtOccurrence(msg, key, k);
    var pre, postKey := msg[..k], msg[k + |key|..];
    if HasPrefix(postKey, NODE) {
      Assembled(codec, pre, Undef, NODE, postKey);
    } else {
      var text := postKey[..BreakIndex(postKey)];
      Assembled(codec, pre, codec.decode(text).cid, text, postKey);
    }
  }

  lemma Assembled(codec: Codec, pre: string, c: Cid, name: string, postKey: string)
    requires name <= postKey && name == if c.Undef? then NODE else codec.show(c)
    ensures Text(codec, Rebuilt(pre, c, postKey[|name|..])) == pre + (KEY + postKey)
  {
  }

  /** Turning a message into an error never changes its text. */
  lemma {:induction false} FallbackPrintsBack(codec: Codec, msg: string)
    requires PrintsBack(codec)
    ensures var e := ParseWithFallback(codec, msg);
            if msg == "" then e.None? else e.Some? && Text(codec, e.value) == msg
  {
    if msg != "" && ParseIpldNotFound(codec, msg).Some? {
      RecognisedPrintsBack(codec, msg);
    }
  }

  /** The characters that end the text of a CID. */
  lemma BreaksAre(c: char)
    ensures c in BREAKS <==>
            || c == ' ' || c == '\t' || c == '\n' || c == '\r' || c == '\U{000B}' || c == '\U{000C}'
            || c == ';' || c == '"'
  {
    var breaks := BREAKS;
    assert breaks[0] == ' ' && breaks[1] == '\t' && breaks[2] == '\n' && breaks[3] == '\r';
    assert breaks[4] == '\U{000B}' && breaks[5] == '\U{000C}' && breaks[6] == ';' && breaks[7] == '"';
  }

  /** The phrase occurs first at `i`, behind it comes `name` and then `post`. */
  ghost predicate Reads(msg: string, phrase: string, i: nat, name: string, post: string) {
    && OccursAt(msg, phrase, i)
    && (forall j: nat :: j < i ==> !OccursAt(msg, phrase, j))
    && msg[i + |phrase|..] == name + post
  }

  lemma ReadsAtIndex(msg: string, phrase: string, name: string, post: string)
    requires Index(msg, phrase) >= 0 && msg[Index(msg, phrase) + |phrase|..] == name + post
    ensures Reads(msg, phrase, Index(msg, phrase), name, post)
  {
  }

  lemma IndexOfReads(msg: string, phrase: string, i: nat, name: string, post: string)
    requires Reads(msg, phrase, i, name, post)
    ensures Index(msg, phrase) == i
  {
  }

  /** A message names a missing CID: a version-0 one, or one whose text is in base 32; `node` names none. */
  ghost predicate NamesCid(codec: Codec, msg: string, i: nat, c: Cid, name: string, post: string) {
    && Reads(msg, "ipld: could not find ", i, name, post)
    && if c.Undef? then name == "node"
       else
         && !("node" <= name + post)
         && (forall j :: 0 <= j < |name| ==> name[j] !in BREAKS) && (post == "" || post[0] in BREAKS)
         && codec.decode(name) == Good(c)
         && (c.version == 0 || (name != "" && name[0] == 'b'))
  }

  /** A message that names a missing CID gives an error with just that CID and the text around it. */
  lemma NamedIsRecognised(codec: Codec, msg: string, i: nat, c: Cid, name: string, post: string)
    requires NamesCid(codec, msg, i, c, name, post)
    ensures ParseIpldNotFound(codec, msg)
         == Some(if i == 0 && post == "" then NotFound(c) else Wrapped(msg[..i], c, post))
  {
    IndexOfReads(msg, KEY, i, name, post);
    var postKey := msg[i + |KEY|..];
    assert postKey[..|name|] == name && postKey[|name|..] == post;
    if c.Defined? {
      BreakAfter(name, post);
    }
  }

  /** And no other message is recognised. */
  lemma RecognisedIsNamed(codec: Codec, msg: string) returns (i: nat, c: Cid, name: string, post: string)
    requires ParseIpldNotFound(codec, msg).Some?
    ensures NamesCid(codec, msg, i, c, name, post)
  {
    i := Index(msg, KEY);
    var postKey := msg[i + |KEY|..];
    var node := NODE;
    if node <= postKey {
      c, name := Undef, node;
    } else {
      name := postKey[..BreakIndex(postKey)];
      c := codec.decode(name).cid;
    }
    post := postKey[|name|..];
    assert postKey == name + post;
    ReadsAtIndex(msg, KEY, name, post);
  }

  ghost predicate NamesSome(codec: Codec, msg: string) {
    exists i: nat, c, name, post :: NamesCid(codec, msg, i, c, name, post)
  }

  ghost predicate MentionsBlockstore(msg: string) {
    exists i: nat :: OccursAt(msg, "blockstore: block not found", i)
  }

  /** Which kind of error a message gives. */
  lemma WhichError(codec: Codec, msg: string)
    ensures var e := ParseWithFallback(codec, msg);
            if msg == "" then e == None
            else if NamesSome(codec, msg) then e.Some? && (e.value.NotFound? || e.value.Wrapped?)
            else if MentionsBlockstore(msg) then e == Some(BlockstoreNotFound(msg))
            else e == Some(Plain(msg))
  {
    if i: nat, c, name, post :| NamesCid(codec, msg, i, c, name, post) {
      NamedIsRecognised(codec, msg, i, c, name, post);
      assert msg != "";
    } else if ParseIpldNotFound(codec, msg).Some? {
      var i, c, name, post := RecognisedIsNamed(codec, msg);
      assert false;
    }
    if i: nat :| OccursAt(msg, "blockstore: block not found", i) {
      assert OccursAt(msg, BLOCKSTORE_KEY, i);
    }
  }

  /** The key phrase cannot overlap itself: no proper suffix of it is also a prefix. */
  lemma KeyHasNoBorder(m: nat)
    requires 0 < m < |KEY|
    ensures KEY[m..] != KEY[..|KEY| - m]
  {
    var border := KEY[..|KEY| - m];
    if m == 17 {
      assert KEY[m..][1] != border[1];
    } else {
      assert KEY[m..][0] != border[0];
    }
  }

  /** A window that starts in the prefix and ends in the key ends with the key's beginning. */
  lemma WindowTail(pre: string, key: string, rest: string, j: nat)
    requires j < |pre| < j + |key|
    ensures (pre + (key + rest))[j..j + |key|][|pre| - j..] == key[..|key| - (|pre| - j)]
  {
  }

  /** After a prefix without the key phrase, the phrase is found right there. */
  lemma KeyFoundAfterPrefix(pre: string, rest: string)
    requires Index(pre, KEY) < 0
    ensures Index(pre + (KEY + rest), KEY) == |pre|
  {
    var key, msg := KEY, pre + (KEY + rest);
    assert OccursAt(msg, key, |pre|);
    forall j: nat | j < |pre| ensures !OccursAt(msg, key, j) {
      if j + |key| <= |pre| {
        assert pre[j..j + |key|] == msg[j..j + |key|];
        assert !OccursAt(pre, key, j);
      } else {
        WindowTail(pre, key, rest, j);
        KeyHasNoBorder(|pre| - j);
      }
    }
  }

  lemma {:induction false} BreakAfter(text: string, post: string)
    requires forall i :: 0 <= i < |text| ==> text[i] !in BREAKS
    requires post == "" || post[0] in BREAKS
    ensures BreakIndex(text + post) == |text|
  {
    if text == "" {
      assert text + post == post;
    } else {
      assert (text + post)[1..] == text[1..] + post;
      BreakAfter(text[1..], post);
    }
  }

  /**
   A not-found error wrapped in other text is recovered with its CID, as long as
   the text before it lacks the key phrase and the text after it starts with a break.
   */
  lemma WrappedIsRecovered(codec: Codec, pre: string, c: Cid, post: string)
    requires Index(pre, KEY) < 0
    requires c.Defined? ==> ReadsBack(codec, c) && (post == "" || post[0] in BREAKS)
    ensures ParseIpldNotFound(codec, pre + NotFoundText(codec, c) + post) == Some(Rebuilt(pre, c, post))
  {
    var key, name := KEY, if c.Undef? then NODE else codec.show(c);
    var msg := pre + NotFoundText(codec, c) + post;
    assert msg == pre + (key + (name + post));
    KeyFoundAfterPrefix(pre, name + post);
    var postKey := msg[|pre| + |key|..];
    assert postKey == name + post && msg[..|pre|] == pre;
    assert postKey[..|name|] == name && postKey[|name|..] == post;
    if c.Defined? {
      BreakAfter(name, post);
      NotNodePrefix(name, post);
    }
  }

  /** Text up to a break does not start with "node" unless the text itself does. */
  lemma NotNodePrefix(text: string, post: string)
    requires !HasPrefix(text, NODE) && (post == "" || post[0] in BREAKS)
    ensures !HasPrefix(text + post, NODE)
  {
    if |text| >= |NODE| {
      assert (text + post)[..|NODE|] == text[..|NODE|];
    } else if post == "" {
      assert text + post == text;
    } else {
      assert (text + post)[|text|] == post[0] && NODE[|text|] !in BREAKS;
    }
  }

  /** Parsing undoes printing. */
  lemma RecoveredIsFixed(codec: Codec, pre: string, c: Cid, post: string)
    requires Index(pre, KEY) < 0
    requires c.Defined? ==> ReadsBack(codec, c) && (post == "" || post[0] in BREAKS)
    ensures var e := Rebuilt(pre, c, post); ParseIpldNotFound(codec, Text(codec, e)) == Some(e)
  {
    WrappedIsRecovered(codec, pre, c, post);
    RebuiltText(codec, pre, c, post);
  }
}
