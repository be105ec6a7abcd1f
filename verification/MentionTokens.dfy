/** Mention tokens inside free text: `<@`, the Base59 id of a node, `>`. */
module MentionTokens {
  import opened Wrappers
  import opened Base59
  import opened UuidBase59
  import opened FirstOccurrences

  predicate IsWordChar(c: char) { '0' <= c <= '9' || 'A' <= c <= 'Z' || 'a' <= c <= 'z' || c == '_' }

  /** `index` is where `token` starts in the scanned text. */
  datatype Mention = Mention(nodeId: string, token: string, index: nat)

  function Token(payload: string): string { "<@" + payload + ">" }

  function BuildMentionToken(nodeId: string): Result<string, CodecError> {
    match EncodeUuid(nodeId)
    case Err(e) => Err(e)
    case Ok(payload) => Ok(Token(payload))
  }

  /** Where the run of word characters that starts at `i` ends. */
  function RunEnd(text: string, i: nat): (e: nat)
    requires i <= |text|
    ensures i <= e <= |text| && (forall k :: i <= k < e ==> IsWordChar(text[k]))
    ensures (e < |text| ==> !IsWordChar(text[e]))
    decreases |text| - i
  {
    if i == |text| || !IsWordChar(text[i]) then i else RunEnd(text, i + 1)
  }

  predicate OpensAt(text: string, i: nat) { i + 2 <= |text| && text[i] == '<' && text[i + 1] == '@' }

  /** Where the token that starts at `i` ends, or `i` when none does. */
  function TokenEnd(text: string, i: nat): (e: nat)
    requires i <= |text|
    ensures e == i || i + 3 < e <= |text|
  {
    if !OpensAt(text, i) then i
    else
      var e := RunEnd(text, i + 2);
      if e > i + 2 && e < |text| && text[e] == '>' then e + 1 else i
  }

  /** Decoding a payload to a node id; the scanner takes it as a parameter. */
  type Decoder = string -> Result<string, CodecError>

  function MentionAt(decode: Decoder, text: string, i: nat, e: nat): seq<Mention>
    requires i + 3 < e <= |text|
  {
    match decode(text[i + 2..e - 1])
    case Ok(nodeId) => [Mention(nodeId, text[i..e], i)]
    case Err(_) => []
  }

  /** What stands at `i`: a token, consumed whole, or one character, skipped. */
  function StepAt(decode: Decoder, text: string, i: nat): (r: (seq<Mention>, nat))
    requires i < |text|
    ensures i < r.1 <= |text|
  {
    var e := TokenEnd(text, i);
    if e > i then (MentionAt(decode, text, i, e), e) else ([], i + 1)
  }

  /** One step of a scan: what it finds and where it goes on. The laws of scanning hold for any steps. */
  type Stepper = (string, nat) -> (seq<Mention>, nat)

  function Stepping(decode: Decoder): Stepper {
    (text: string, i: nat) => if i < |text| then StepAt(decode, text, i) else ([], i + 1)
  }

  function ScanFrom(step: Stepper, text: string, i: nat): seq<Mention>
    requires i <= |text|
    decreases |text| - i
  {
    if i == |text| then []
    else
      var (found, next) := step(text, i);
      if i < next <= |text| then found + ScanFrom(step, text, next) else found
  }

  function Scan(text: string): seq<Mention> { ScanFrom(Stepping(DecodeUuid), text, 0) }

  predicate Mentionless(t: string) { forall i :: 0 <= i < |t| ==> !OpensAt(t, i) }

  /** The shortcut for texts without `<@` and the scan give the same list. */
  method ParseMentionTokens(text: string) returns (out: seq<Mention>)
    ensures out == Scan(text)
  {
    if Mentionless(text) {
      SkipTo(Stepping(DecodeUuid), text, 0, |text|);
      return [];
    }
    out := MatchAll(DecodeUuid, text);
  }

  method MatchAll(decode: Decoder, text: string) returns (out: seq<Mention>)
    ensures out == ScanFrom(Stepping(decode), text, 0)
  {
    out := [];
    var i := 0;
    while i < |text|
      invariant 0 <= i <= |text|
      invariant out + ScanFrom(Stepping(decode), text, i) == ScanFrom(Stepping(decode), text, 0)
    {
      var (found, next) := StepAt(decode, text, i);
      Regroup(out, found, ScanFrom(Stepping(decode), text, next));
      out := out + found;
      i := next;
    }
  }

  lemma Regroup(a: seq<Mention>, b: seq<Mention>, c: seq<Mention>)
    ensures a + (b + c) == (a + b) + c && a + [] == a
  {
  }

  function IdsOf(mentions: seq<Mention>): seq<string> {
    seq(|mentions|, i requires 0 <= i < |mentions| => mentions[i].nodeId)
  }

  /** All mentioned ids of several texts, in order. */
  function AllIds(texts: seq<string>): seq<string> {
    if texts == [] then [] else AllIds(texts[..|texts| - 1]) + IdsOf(Scan(texts[|texts| - 1]))
  }

  method CollectMentionNodeIds(texts: seq<string>) returns (out: seq<string>)
    ensures out == Dedupe(AllIds(texts))
  {
    var seen: set<string> := {};
    out := [];
    for i := 0 to |texts|
      invariant out == Dedupe(AllIds(texts[..i])) && forall id :: id in seen <==> id in out
    {
      var mentions := ParseMentionTokens(texts[i]);
      ghost var before := AllIds(texts[..i]);
      assert before + IdsOf(mentions)[..0] == before;
      for k := 0 to |mentions|
        invariant out == Dedupe(before + IdsOf(mentions)[..k]) && forall id :: id in seen <==> id in out
      {
        var nodeId := mentions[k].nodeId;
        DedupeNext(before, IdsOf(mentions), k);
        if nodeId !in seen {
          seen := seen + {nodeId};
          out := out + [nodeId];
        }
      }
      assert IdsOf(mentions)[..|mentions|] == IdsOf(mentions);
      assert texts[..i + 1][..i] == texts[..i];
    }
    assert texts[..|texts|] == texts;
  }

  lemma DedupeNext(before: seq<string>, ids: seq<string>, k: nat)
    requires k < |ids|
    ensures var so_far := Dedupe(before + ids[..k]);
      Dedupe(before + ids[..k + 1]) == if ids[k] in so_far then so_far else so_far + [ids[k]]
  {
    assert before + ids[..k + 1] == (before + ids[..k]) + [ids[k]];
    DedupeSnoc(before + ids[..k], ids[k]);
    DedupeKeeps(before + ids[..k]);
  }

  // ---- printing, then scanning ---------------------------------------------------------------------------------

  lemma {:induction false} SkipTo(step: Stepper, text: string, i: nat, j: nat)
    requires i <= j <= |text| && forall k: nat :: i <= k < j ==> step(text, k) == ([], k + 1)
    ensures ScanFrom(step, text, i) == ScanFrom(step, text, j)
    decreases j - i
  {
    if i < j { SkipTo(step, text, i + 1, j); }
  }

  ghost predicate FindsOne(step: Stepper, text: string, at: nat, end: nat, next: nat, m: Mention) {
    && at < end <= next <= |text| && step(text, at) == ([m], end)
    && forall i: nat :: end <= i < next ==> step(text, i) == ([], i + 1)
  }

  lemma FoundThenRest(step: Stepper, text: string, at: nat, end: nat, next: nat, m: Mention)
    requires FindsOne(step, text, at, end, next, m)
    ensures ScanFrom(step, text, at) == [m] + ScanFrom(step, text, next)
  {
    SkipTo(step, text, end, next);
  }

  predicate Words(s: string) { s != "" && forall i :: 0 <= i < |s| ==> IsWordChar(s[i]) }

  lemma AlphabetIsWords(s: string)
    requires InAlphabet(s) && s != ""
    ensures Words(s)
  {
    forall i | 0 <= i < |s| ensures IsWordChar(s[i]) { assert DigitOf(s[i]).Some?; }
  }

  ghost predicate StandsAt(text: string, i: nat, part: string) { i + |part| <= |text| && text[i..i + |part|] == part }

  /** A token that stands in a text is measured there, and its payload read back. */
  lemma TokenMeasured(text: string, i: nat, payload: string)
    requires Words(payload) && StandsAt(text, i, Token(payload))
    ensures TokenEnd(text, i) == i + |Token(payload)| && text[i + 2..i + |Token(payload)| - 1] == payload
  {
    var token := Token(payload);
    assert forall k :: 0 <= k < |token| ==> text[i + k] == token[k];
    assert forall k :: 0 <= k < |payload| ==> text[i + 2 + k] == payload[k];
    assert text[i + 2 + |payload|] == '>';
    var e := RunEnd(text, i + 2);
    assert e >= i + 2 + |payload|;
  }

  /** `token` is a token for the node, whatever its payload. */
  ghost predicate Names(decode: Decoder, token: string, nodeId: string) {
    exists payload :: Words(payload) && token == Token(payload) && decode(payload) == Ok(nodeId)
  }

  lemma TokenStep(decode: Decoder, doc: string, at: nat, token: string, nodeId: string)
    requires Names(decode, token, nodeId) && StandsAt(doc, at, token)
    ensures token != "" && token[0] == '<' && at < |doc|
    ensures Stepping(decode)(doc, at) == ([Mention(nodeId, token, at)], at + |token|)
  {
    var payload :| Words(payload) && token == Token(payload) && decode(payload) == Ok(nodeId);
    TokenMeasured(doc, at, payload);
    assert MentionAt(decode, doc, at, at + |token|) == [Mention(nodeId, token, at)];
  }

  /** Nothing opens inside a text that stands before a token or the end. */
  lemma TextSteps(decode: Decoder, doc: string, i: nat, t: string)
    requires StandsAt(doc, i, t) && Mentionless(t)
    requires i + |t| < |doc| ==> doc[i + |t|] != '@'
    ensures forall k: nat :: i <= k < i + |t| ==> Stepping(decode)(doc, k) == ([], k + 1)
  {
    forall k: nat | i <= k < i + |t| ensures !OpensAt(doc, k) {
      assert doc[k] == t[k - i] && !OpensAt(t, k - i);
      assert k + 1 < i + |t| ==> doc[k + 1] == t[k + 1 - i];
    }
  }

  /** The first `k` tokens with the texts around them. */
  function Prefix(texts: seq<string>, tokens: seq<string>, k: nat): string
    requires k <= |tokens| && |texts| == |tokens| + 1
  {
    if k == 0 then texts[0] else Prefix(texts, tokens, k - 1) + tokens[k - 1] + texts[k]
  }

  /** Texts and tokens in turn, starting and ending with a text. */
  function Render(texts: seq<string>, tokens: seq<string>): string
    requires |texts| == |tokens| + 1
  {
    Prefix(texts, tokens, |tokens|)
  }

  /** Where token `k` starts in the rendering, and where the rendering ends for the last text. */
  function Place(texts: seq<string>, tokens: seq<string>, k: nat): nat
    requires k <= |tokens| && |texts| == |tokens| + 1
  {
    |texts[k]| + if k == 0 then 0 else Place(texts, tokens, k - 1) + |tokens[k - 1]|
  }

  lemma {:induction false} PrefixGrows(texts: seq<string>, tokens: seq<string>, k: nat, n: nat)
    requires k <= n <= |tokens| && |texts| == |tokens| + 1
    ensures Prefix(texts, tokens, k) <= Prefix(texts, tokens, n)
    decreases n - k
  {
    if k < n { PrefixGrows(texts, tokens, k, n - 1); }
  }

  lemma {:induction false} PlaceIsLength(texts: seq<string>, tokens: seq<string>, k: nat)
    requires k <= |tokens| && |texts| == |tokens| + 1
    ensures Place(texts, tokens, k) == |Prefix(texts, tokens, k)|
  {
    if k > 0 { PlaceIsLength(texts, tokens, k - 1); }
  }

  /** Token `k` stands at its place, and text `k + 1` follows it up to the next place. */
  lemma TokenStands(texts: seq<string>, tokens: seq<string>, k: nat)
    requires k < |tokens| && |texts| == |tokens| + 1
    ensures var doc, at := Render(texts, tokens), Place(texts, tokens, k);
      StandsAt(doc, at, tokens[k]) && StandsAt(doc, at + |tokens[k]|, texts[k + 1])
  {
    PrefixGrows(texts, tokens, k + 1, |tokens|);
    PlaceIsLength(texts, tokens, k);
    JoinStands(Prefix(texts, tokens, k), tokens[k], texts[k + 1], Render(texts, tokens));
  }

  lemma JoinStands(a: string, b: string, c: string, doc: string)
    requires a + b + c <= doc
    ensures StandsAt(doc, 0, a) && StandsAt(doc, |a|, b) && StandsAt(doc, |a| + |b|, c)
  {
  }

  lemma FirstTextStands(texts: seq<string>, tokens: seq<string>)
    requires |texts| == |tokens| + 1
    ensures StandsAt(Render(texts, tokens), 0, texts[0]) && Place(texts, tokens, |tokens|) == |Render(texts, tokens)|
  {
    PrefixGrows(texts, tokens, 0, |tokens|);
    PlaceIsLength(texts, tokens, |tokens|);
  }

  ghost predicate Printable(decode: Decoder, texts: seq<string>, tokens: seq<string>, nodeIds: seq<string>) {
    && |texts| == |tokens| + 1 && |nodeIds| == |tokens|
    && (forall i :: 0 <= i < |texts| ==> Mentionless(texts[i]))
    && forall i :: 0 <= i < |tokens| ==> Names(decode, tokens[i], nodeIds[i])
  }

  /** The text before place `k` ends at the document's end or before a token. */
  lemma NextIsNotAt(decode: Decoder, texts: seq<string>, tokens: seq<string>, nodeIds: seq<string>, k: nat)
    requires Printable(decode, texts, tokens, nodeIds) && k <= |tokens|
    ensures var doc, at := Render(texts, tokens), Place(texts, tokens, k);
      at <= |doc| && (at < |doc| ==> doc[at] != '@')
  {
    FirstTextStands(texts, tokens);
    if k < |tokens| {
      TokenStands(texts, tokens, k);
      TokenStep(decode, Render(texts, tokens), Place(texts, tokens, k), tokens[k], nodeIds[k]);
    }
  }

  ghost predicate FindsAt(step: Stepper, doc: string, texts: seq<string>, tokens: seq<string>, nodeIds: seq<string>,
        k: nat)
    requires |texts| == |tokens| + 1 && |nodeIds| == |tokens| && k < |tokens|
  {
    var at := Place(texts, tokens, k);
    FindsOne(step, doc, at, at + |tokens[k]|, Place(texts, tokens, k + 1), Mention(nodeIds[k], tokens[k], at))
  }

  lemma NextMention(decode: Decoder, texts: seq<string>, tokens: seq<string>, nodeIds: seq<string>, k: nat)
    requires Printable(decode, texts, tokens, nodeIds) && k < |tokens|
    ensures FindsAt(Stepping(decode), Render(texts, tokens), texts, tokens, nodeIds, k)
  {
    TokenStands(texts, tokens, k);
    NextIsNotAt(decode, texts, tokens, nodeIds, k + 1);
    TokenThenText(decode, Render(texts, tokens), Place(texts, tokens, k), tokens[k], nodeIds[k], texts[k + 1]);
  }

  lemma TokenThenText(decode: Decoder, doc: string, at: nat, token: string, nodeId: string, text: string)
    requires Names(decode, token, nodeId) && Mentionless(text)
    requires StandsAt(doc, at, token) && StandsAt(doc, at + |token|, text)
    requires var next := at + |token| + |text|; next < |doc| ==> doc[next] != '@'
    ensures FindsOne(Stepping(decode), doc, at, at + |token|, at + |token| + |text|, Mention(nodeId, token, at))
  {
    TokenStep(decode, doc, at, token, nodeId);
    TextSteps(decode, doc, at + |token|, text);
  }

  /** Each node, with its token, at that token's place. */
  ghost function MentionsOf(texts: seq<string>, tokens: seq<string>, nodeIds: seq<string>): seq<Mention>
    requires |texts| == |tokens| + 1 && |nodeIds| == |tokens|
  {
    seq(|tokens|, k requires 0 <= k < |tokens| => Mention(nodeIds[k], tokens[k], Place(texts, tokens, k)))
  }

  lemma FoundAt(step: Stepper, doc: string, texts: seq<string>, tokens: seq<string>, nodeIds: seq<string>, k: nat)
    requires |texts| == |tokens| + 1 && |nodeIds| == |tokens| && k < |tokens|
    requires FindsAt(step, doc, texts, tokens, nodeIds, k)
    ensures Place(texts, tokens, k) <= |doc| && Place(texts, tokens, k + 1) <= |doc|
    ensures ScanFrom(step, doc, Place(texts, tokens, k)) ==
      [Mention(nodeIds[k], tokens[k], Place(texts, tokens, k))] + ScanFrom(step, doc, Place(texts, tokens, k + 1))
  {
    var at := Place(texts, tokens, k);
    FoundThenRest(step, doc, at, at + |tokens[k]|, Place(texts, tokens, k + 1), Mention(nodeIds[k], tokens[k], at));
  }

  /** Steps that find one mention at each place, and nothing in between, find them all. */
  lemma {:induction false} ScanFromPlace(step: Stepper, doc: string, texts: seq<string>, tokens: seq<string>,
        nodeIds: seq<string>, k: nat)
    requires |texts| == |tokens| + 1 && |nodeIds| == |tokens| && k <= |tokens|
    requires Place(texts, tokens, |tokens|) == |doc|
    requires forall i: nat :: i < |tokens| ==> FindsAt(step, doc, texts, tokens, nodeIds, i)
    ensures Place(texts, tokens, k) <= |doc|
    ensures ScanFrom(step, doc, Place(texts, tokens, k)) == MentionsOf(texts, tokens, nodeIds)[k..]
    decreases |tokens| - k
  {
    if k < |tokens| {
      ScanFromPlace(step, doc, texts, tokens, nodeIds, k + 1);
      FoundAt(step, doc, texts, tokens, nodeIds, k);
      var found := MentionsOf(texts, tokens, nodeIds);
      assert found[k..] == [found[k]] + found[k + 1..];
    }
  }

  lemma RenderingScans(decode: Decoder, texts: seq<string>, tokens: seq<string>, nodeIds: seq<string>)
    requires Printable(decode, texts, tokens, nodeIds)
    ensures ScanFrom(Stepping(decode), Render(texts, tokens), 0) == MentionsOf(texts, tokens, nodeIds)
  {
    var step, doc := Stepping(decode), Render(texts, tokens);
    FirstTextIsSkipped(decode, texts, tokens, nodeIds);
    FirstTextStands(texts, tokens);
    forall k: nat | k < |tokens| ensures FindsAt(step, doc, texts, tokens, nodeIds, k) {
      NextMention(decode, texts, tokens, nodeIds, k);
    }
    ScanFromPlace(step, doc, texts, tokens, nodeIds, 0);
  }

  lemma FirstTextIsSkipped(decode: Decoder, texts: seq<string>, tokens: seq<string>, nodeIds: seq<string>)
    requires Printable(decode, texts, tokens, nodeIds)
    ensures |texts[0]| <= |Render(texts, tokens)|
    ensures ScanFrom(Stepping(decode), Render(texts, tokens), 0) ==
      ScanFrom(Stepping(decode), Render(texts, tokens), |texts[0]|)
  {
    FirstTextStands(texts, tokens);
    NextIsNotAt(decode, texts, tokens, nodeIds, 0);
    TextSteps(decode, Render(texts, tokens), 0, texts[0]);
    SkipTo(Stepping(decode), Render(texts, tokens), 0, |texts[0]|);
  }

  lemma BuiltTokenNames(nodeId: string)
    requires IsUuidV4(nodeId)
    ensures BuildMentionToken(nodeId).Ok? && Names(DecodeUuid, BuildMentionToken(nodeId).value, Lower(nodeId))
  {
    UuidRoundTrip(nodeId);
    EncodingIsShort(nodeId);
    AlphabetIsWords(EncodeUuid(nodeId).value);
  }

  function TokensOf(nodeIds: seq<string>): seq<string>
    requires forall i :: 0 <= i < |nodeIds| ==> BuildMentionToken(nodeIds[i]).Ok?
  {
    seq(|nodeIds|, i requires 0 <= i < |nodeIds| => BuildMentionToken(nodeIds[i]).value)
  }

  function LowerAll(ids: seq<string>): seq<string> {
    seq(|ids|, i requires 0 <= i < |ids| => Lower(ids[i]))
  }

  /** Scanning undoes printing, in any context free of `<@`: the scan lists exactly the printed nodes in order, each
    * with the token built for it, at the place where that token stands. */
  lemma PrintThenScan(texts: seq<string>, nodeIds: seq<string>)
    requires |texts| == |nodeIds| + 1
    requires forall i :: 0 <= i < |texts| ==> Mentionless(texts[i])
    requires forall i :: 0 <= i < |nodeIds| ==> IsUuidV4(nodeIds[i])
    ensures forall i :: 0 <= i < |nodeIds| ==> BuildMentionToken(nodeIds[i]).Ok?
    ensures var tokens := TokensOf(nodeIds); var doc := Render(texts, tokens);
      && Scan(doc) == MentionsOf(texts, tokens, LowerAll(nodeIds))
      && forall k :: 0 <= k < |tokens| ==> StandsAt(doc, Place(texts, tokens, k), tokens[k])
  {
    forall i | 0 <= i < |nodeIds|
      ensures BuildMentionToken(nodeIds[i]).Ok?
      ensures Names(DecodeUuid, BuildMentionToken(nodeIds[i]).value, Lower(nodeIds[i]))
    {
      BuiltTokenNames(nodeIds[i]);
    }
    var tokens := TokensOf(nodeIds);
    RenderingScans(DecodeUuid, texts, tokens, LowerAll(nodeIds));
    forall k | 0 <= k < |tokens| { TokenStands(texts, tokens, k); }
  }

  /** Collecting the ids of a printed text keeps each node's first mention, in order. */
  lemma PrintThenCollect(texts: seq<string>, nodeIds: seq<string>)
    requires |texts| == |nodeIds| + 1
    requires forall i :: 0 <= i < |texts| ==> Mentionless(texts[i])
    requires forall i :: 0 <= i < |nodeIds| ==> IsUuidV4(nodeIds[i])
    ensures forall i :: 0 <= i < |nodeIds| ==> BuildMentionToken(nodeIds[i]).Ok?
    ensures AllIds([Render(texts, TokensOf(nodeIds))]) == LowerAll(nodeIds)
  {
    PrintThenScan(texts, nodeIds);
    var doc := Render(texts, TokensOf(nodeIds));
    IdsOfMentions(texts, TokensOf(nodeIds), LowerAll(nodeIds));
    assert [doc][..0] == [];
    assert AllIds([doc]) == [] + IdsOf(Scan(doc));
  }

  lemma IdsOfMentions(texts: seq<string>, tokens: seq<string>, nodeIds: seq<string>)
    requires |texts| == |tokens| + 1 && |nodeIds| == |tokens|
    ensures IdsOf(MentionsOf(texts, tokens, nodeIds)) == nodeIds
  {
  }

  // ---- what the scan finds in any text ---------------------------------------------------------------------------

  lemma MentionAtIs(decode: Decoder, text: string, i: nat, e: nat, m: Mention)
    requires i + 3 < e <= |text|
    ensures m in MentionAt(decode, text, i, e) <==>
      m.index == i && m.token == text[i..e] && decode(text[i + 2..e - 1]) == Ok(m.nodeId)
  {
  }

  lemma InsideToken(text: string, i: nat, k: nat)
    requires i <= |text| && i < k < TokenEnd(text, i)
    ensures TokenEnd(text, k) == k
  {
    assert text[k] != '<';
  }

  lemma {:induction false} ScanStarts(decode: Decoder, text: string, i: nat)
    requires i <= |text|
    ensures forall m :: m in ScanFrom(Stepping(decode), text, i) ==> m.index >= i
    decreases |text| - i
  {
    if i < |text| {
      var e := TokenEnd(text, i);
      ScanStarts(decode, text, if e > i then e else i + 1);
    }
  }

  /** In any text, the scan lists a mention exactly when a decodable token stands at its index, as it says. */
  lemma {:induction false} ScanExactly(decode: Decoder, text: string, i: nat, m: Mention)
    requires i <= m.index <= |text|
    ensures m in ScanFrom(Stepping(decode), text, i) <==>
      var e := TokenEnd(text, m.index);
      e > m.index && m.token == text[m.index..e] && decode(text[m.index + 2..e - 1]) == Ok(m.nodeId)
    decreases |text| - i
  {
    if i < |text| {
      var e := TokenEnd(text, i);
      var next := if e > i then e else i + 1;
      ScanStarts(decode, text, next);
      if e > i { MentionAtIs(decode, text, i, e, m); }
      assert m in ScanFrom(Stepping(decode), text, i) <==>
        (e > i && m in MentionAt(decode, text, i, e)) || m in ScanFrom(Stepping(decode), text, next);
      if m.index >= next {
        ScanExactly(decode, text, next, m);
      } else if m.index > i {
        InsideToken(text, i, m.index);
      }
    }
  }
}
