/** Governed text of an OpenAI Chat request (proxy/app/protocol_types.py). */
module ChatPayload {
  import opened Wrappers
  import opened WriteBack
  import opened KeyedLeaves

  /** `rest` stands for the fields that are copied along. */
  datatype Part =
    | TextPart(text: string, rest: string)
    | OtherPart(body: string)

  datatype Content = Plain(text: string) | Parts(parts: seq<Part>)

  datatype Message =
    | UserMessage(content: Content, rest: string)
    | OtherMessage(body: string)

  function PartLeaves(parts: seq<Part>): (leaves: seq<Leaf<nat>>)
    ensures forall i :: 0 <= i < |leaves| ==> leaves[i].key < |parts|
    ensures DistinctKeys(leaves)
  {
    if parts == [] then []
    else
      var n := |parts| - 1;
      PartLeaves(parts[..n]) + if parts[n].TextPart? then [Leaf(n, parts[n].text)] else []
  }

  /** The index of the last user message. */
  function LastUser(messages: seq<Message>): (r: Option<nat>)
    ensures r.Some? ==> r.value < |messages| && messages[r.value].UserMessage?
  {
    if messages == [] then None
    else if messages[|messages| - 1].UserMessage? then Some(|messages| - 1)
    else LastUser(messages[..|messages| - 1])
  }

  function LeafTexts(content: Content): seq<string> {
    match content
    case Plain(text) => [text]
    case Parts(parts) => Texts(PartLeaves(parts))
  }

  function GovernedLeaves(messages: seq<Message>): seq<string> {
    match LastUser(messages)
    case None => []
    case Some(k) => LeafTexts(messages[k].content)
  }

  function GovernanceText(messages: seq<Message>): string { Join(GovernedLeaves(messages)) }

  function ReplaceParts(parts: seq<Part>, texts: map<nat, string>): (r: seq<Part>)
    ensures |r| == |parts|
  {
    seq(|parts|, i requires 0 <= i < |parts| =>
      if i in texts && parts[i].TextPart? then parts[i].(text := texts[i]) else parts[i])
  }

  function ReplaceContent(content: Content, replacements: seq<string>): Content
    requires |replacements| == |LeafTexts(content)|
  {
    match content
    case Plain(_) => Plain(replacements[0])
    case Parts(parts) => Parts(ReplaceParts(parts, ByKey(PartLeaves(parts), replacements)))
  }

  function WithRedactedText(messages: seq<Message>, redacted: string, diff: Differ): (r: seq<Message>)
    requires ValidDiffer(diff)
    ensures |r| == |messages|
  {
    var leaves := GovernedLeaves(messages);
    if leaves == [] then messages
    else
      var k := LastUser(messages).value;
      messages[k := messages[k].(content := ReplaceContent(messages[k].content, Redistributed(leaves, redacted, diff)))]
  }

  lemma {:induction false} LeavesOfReplaced(parts: seq<Part>, texts: map<nat, string>)
    ensures PartLeaves(ReplaceParts(parts, texts)) == Relabel(PartLeaves(parts), texts)
  {
    if parts != [] {
      var n := |parts| - 1;
      LeavesOfReplaced(parts[..n], texts);
      assert ReplaceParts(parts, texts)[..n] == ReplaceParts(parts[..n], texts);
    }
  }

  lemma ReplacedTexts(content: Content, replacements: seq<string>)
    requires |replacements| == |LeafTexts(content)|
    ensures LeafTexts(ReplaceContent(content, replacements)) == replacements
  {
    if content.Parts? {
      var leaves := PartLeaves(content.parts);
      LeavesOfReplaced(content.parts, ByKey(leaves, replacements));
      RelabelledTexts(leaves, replacements);
    }
  }

  lemma {:induction false} LastUserStays(messages: seq<Message>, k: nat, m: Message)
    requires LastUser(messages) == Some(k) && m.UserMessage?
    ensures LastUser(messages[k := m]) == Some(k)
    decreases |messages|
  {
    var n := |messages| - 1;
    if k < n {
      LastUserStays(messages[..n], k, m);
      assert messages[k := m][..n] == messages[..n][k := m];
    }
  }

  /** What governance reads after a redaction is exactly the redacted text, if there is any governed leaf. */
  lemma {:induction false} RedactionRoundTrip(messages: seq<Message>, redacted: string, diff: Differ)
    requires ValidDiffer(diff)
    ensures GovernanceText(WithRedactedText(messages, redacted, diff))
         == if HasGovernedText(messages) then redacted else ""
  {
    GovernedIffText(messages);
    var leaves := GovernedLeaves(messages);
    if leaves != [] {
      var k := LastUser(messages).value;
      var replacements := Redistributed(leaves, redacted, diff);
      var content := ReplaceContent(messages[k].content, replacements);
      ReplacedTexts(messages[k].content, replacements);
      LastUserStays(messages, k, messages[k].(content := content));
      WriteBackConserves(leaves, redacted, diff);
    }
  }

  /** `a` and `b` differ in the text of text parts only. */
  ghost predicate SamePart(a: Part, b: Part) {
    a == b || (a.TextPart? && b.TextPart? && a.rest == b.rest)
  }

  /** Other messages are untouched, and in the redacted one every part keeps its place and its other fields. */
  lemma RedactionKeepsTheRest(messages: seq<Message>, redacted: string, diff: Differ, i: nat)
    requires ValidDiffer(diff) && i < |messages|
    ensures !IsLastUser(messages, i) ==> WithRedactedText(messages, redacted, diff)[i] == messages[i]
    ensures var m, m' := messages[i], WithRedactedText(messages, redacted, diff)[i];
            m.UserMessage? ==>
              m'.UserMessage? && m'.rest == m.rest && (m.content.Plain? <==> m'.content.Plain?)
              && (m.content.Parts? ==>
                    |m.content.parts| == |m'.content.parts|
                    && forall j :: 0 <= j < |m.content.parts| ==> SamePart(m.content.parts[j], m'.content.parts[j]))
  {
    LastUserFound(messages);
  }

  // ---------------------------------------------------------------- read off the messages

  /** Message `k` is the last one from the user. */
  predicate IsLastUser(messages: seq<Message>, k: nat) {
    k < |messages| && messages[k].UserMessage? && forall j :: k < j < |messages| ==> messages[j].OtherMessage?
  }

  /** The texts of a content: itself, or those of its text parts from the first to the last. */
  function TextsOf(content: Content): seq<string> {
    match content
    case Plain(text) => [text]
    case Parts(parts) => TextsOfParts(parts)
  }

  function TextsOfParts(parts: seq<Part>): seq<string> {
    if parts == [] then []
    else match parts[0]
      case TextPart(text, _) => [text] + TextsOfParts(parts[1..])
      case OtherPart(_) => TextsOfParts(parts[1..])
  }

  lemma {:induction false} TextsOfMoreParts(parts: seq<Part>, p: Part)
    ensures TextsOfParts(parts + [p]) == TextsOfParts(parts) + if p.TextPart? then [p.text] else []
  {
    if parts == [] {
      assert [p][1..] == [];
    } else {
      TextsOfMoreParts(parts[1..], p);
      assert (parts + [p])[1..] == parts[1..] + [p];
    }
  }

  lemma {:induction false} LeavesAreTexts(content: Content)
    ensures LeafTexts(content) == TextsOf(content)
  {
    if content.Parts? {
      PartLeavesAreTexts(content.parts);
    }
  }

  lemma {:induction false} PartLeavesAreTexts(parts: seq<Part>)
    ensures Texts(PartLeaves(parts)) == TextsOfParts(parts)
  {
    hide DistinctKeys;
    if parts != [] {
      var n := |parts| - 1;
      PartLeavesAreTexts(parts[..n]);
      TextsOfMoreParts(parts[..n], parts[n]);
      assert parts == parts[..n] + [parts[n]];
      var more := if parts[n].TextPart? then [Leaf(n, parts[n].text)] else [];
      assert Texts(PartLeaves(parts[..n]) + more) == Texts(PartLeaves(parts[..n])) + Texts(more);
    }
  }

  lemma {:induction false} LastUserFound(messages: seq<Message>)
    ensures match LastUser(messages)
            case Some(k) => IsLastUser(messages, k)
            case None => forall j :: 0 <= j < |messages| ==> messages[j].OtherMessage?
  {
    if messages != [] {
      LastUserFound(messages[..|messages| - 1]);
    }
  }

  /** The last user message holds a text, if only an empty one. */
  ghost predicate HasGovernedText(messages: seq<Message>) {
    exists k: nat :: IsLastUser(messages, k) && TextsOf(messages[k].content) != []
  }

  lemma {:induction false} GovernedIffText(messages: seq<Message>)
    ensures GovernedLeaves(messages) != [] <==> HasGovernedText(messages)
  {
    hide LeafTexts, TextsOf;
    LastUserFound(messages);
    if LastUser(messages).Some? {
      var k := LastUser(messages).value;
      LeavesAreTexts(messages[k].content);
      assert IsLastUser(messages, k);
    }
  }

  /**
   Exactly the last user message is governed: all its texts, in order, are read, and after a redaction they are the
   shares of the redacted text; nothing else changes.
   */
  lemma {:induction false} LastUserIsGoverned(messages: seq<Message>, k: nat, redacted: string, diff: Differ)
    requires ValidDiffer(diff) && IsLastUser(messages, k)
    ensures GovernanceText(messages) == Join(TextsOf(messages[k].content))
    ensures var after := WithRedactedText(messages, redacted, diff);
            IsLastUser(after, k) && (forall j :: 0 <= j < |messages| && j != k ==> after[j] == messages[j])
            && TextsOf(after[k].content) == Redistributed(TextsOf(messages[k].content), redacted, diff)
            && Join(TextsOf(after[k].content)) == (if TextsOf(messages[k].content) == [] then "" else redacted)
  {
    hide LeafTexts, TextsOf, ReplaceContent, ValidDiffer, Redistributed, Join;
    LastUserFound(messages);
    var content := messages[k].content;
    var texts := Redistributed(LeafTexts(content), redacted, diff);
    LeavesAreTexts(content);
    WriteBackConserves(LeafTexts(content), redacted, diff);
    NothingWritten(redacted, diff);
    if LeafTexts(content) != [] {
      ReplacedTexts(content, texts);
      LeavesAreTexts(ReplaceContent(content, texts));
    }
  }

  lemma NothingWritten(redacted: string, diff: Differ)
    requires ValidDiffer(diff)
    ensures Redistributed([], redacted, diff) == [] && Join([]) == ""
  {
    WriteBackConserves([], redacted, diff);
  }

  /** Without a user message nothing is governed and nothing changes. */
  lemma {:induction false} NoUserMessage(messages: seq<Message>, redacted: string, diff: Differ)
    requires ValidDiffer(diff) && forall j :: 0 <= j < |messages| ==> messages[j].OtherMessage?
    ensures GovernanceText(messages) == "" && WithRedactedText(messages, redacted, diff) == messages
  {
    LastUserFound(messages);
  }
}
