/** Governed text of an Anthropic Messages request and its translation to Chat (proxy/app/anthropic_compat.py). */
module AnthropicPayload {
  import opened Wrappers
  import opened WriteBack
  import opened KeyedLeaves

  datatype Role = User | Assistant | System

  /** What a tool result holds besides plain text; `rest` stands for the fields that are copied along. */
  datatype SubBlock =
    | SubText(text: string, rest: string)
    | Image(source: string)

  datatype ToolContent =
    | NoContent
    | TextContent(text: string)
    | ListContent(blocks: seq<SubBlock>)

  datatype Block =
    | TextBlock(text: string, rest: string)
    | ToolResult(toolUseId: string, content: ToolContent, isError: bool)
    | ToolUse(id: string, name: string, input: string)
    | OtherBlock(kind: string)

  datatype Content = Plain(text: string) | Blocks(blocks: seq<Block>)

  datatype Message = Message(role: Role, content: Content)

  // ---------------------------------------------------------------- the inner level: tool results

  function SubLeaves(blocks: seq<SubBlock>): (leaves: seq<Leaf<nat>>)
    ensures forall i :: 0 <= i < |leaves| ==> leaves[i].key < |blocks|
    ensures DistinctKeys(leaves)
  {
    if blocks == [] then []
    else
      var n := |blocks| - 1;
      SubLeaves(blocks[..n]) + if blocks[n].SubText? then [Leaf(n, blocks[n].text)] else []
  }

  /** The flattened text of a tool result; images contribute none. */
  function ToolResultText(content: ToolContent): string {
    match content
    case NoContent => ""
    case TextContent(text) => text
    case ListContent(blocks) => Join(Texts(SubLeaves(blocks)))
  }

  function ReplaceSubBlocks(blocks: seq<SubBlock>, texts: map<nat, string>): (r: seq<SubBlock>)
    ensures |r| == |blocks|
  {
    seq(|blocks|, i requires 0 <= i < |blocks| =>
      if i in texts && blocks[i].SubText? then blocks[i].(text := texts[i]) else blocks[i])
  }

  /** A share with no text block to take it becomes the content itself, or a new text block after the images. */
  function RedactToolResult(content: ToolContent, redacted: string, diff: Differ): ToolContent
    requires ValidDiffer(diff)
  {
    match content
    case TextContent(_) => TextContent(redacted)
    case NoContent => if redacted != "" then TextContent(redacted) else NoContent
    case ListContent(blocks) =>
      var leaves := SubLeaves(blocks);
      if leaves == [] then
        (if redacted != "" then ListContent(blocks + [SubText(redacted, "")]) else content)
      else
        ListContent(ReplaceSubBlocks(blocks, ByKey(leaves, Redistributed(Texts(leaves), redacted, diff))))
  }

  lemma {:induction false} SubLeavesOfReplaced(blocks: seq<SubBlock>, texts: map<nat, string>)
    ensures SubLeaves(ReplaceSubBlocks(blocks, texts)) == Relabel(SubLeaves(blocks), texts)
  {
    if blocks != [] {
      var n := |blocks| - 1;
      SubLeavesOfReplaced(blocks[..n], texts);
      assert ReplaceSubBlocks(blocks, texts)[..n] == ReplaceSubBlocks(blocks[..n], texts);
    }
  }

  lemma AppendedText(blocks: seq<SubBlock>, redacted: string)
    requires SubLeaves(blocks) == []
    ensures Join(Texts(SubLeaves(blocks + [SubText(redacted, "")]))) == redacted
  {
    var longer := blocks + [SubText(redacted, "")];
    assert longer[..|blocks|] == blocks;
    assert SubLeaves(longer) == [Leaf(|blocks|, redacted)];
    assert Texts(SubLeaves(longer)) == [redacted];
    assert [redacted][..0] == [];
  }

  lemma ReplacedText(blocks: seq<SubBlock>, redacted: string, diff: Differ)
    requires ValidDiffer(diff) && SubLeaves(blocks) != []
    ensures var leaves := SubLeaves(blocks);
            var texts := ByKey(leaves, Redistributed(Texts(leaves), redacted, diff));
            Join(Texts(SubLeaves(ReplaceSubBlocks(blocks, texts)))) == redacted
  {
    hide Join, Redistributed, ValidDiffer, ByKey, Relabel, SubLeaves;
    var leaves := SubLeaves(blocks);
    var replacements := Redistributed(Texts(leaves), redacted, diff);
    SubLeavesOfReplaced(blocks, ByKey(leaves, replacements));
    RelabelledTexts(leaves, replacements);
    WriteBackConserves(Texts(leaves), redacted, diff);
  }

  /** Whatever shape a tool result has, it holds exactly the text written into it. */
  lemma ToolResultRoundTrip(content: ToolContent, redacted: string, diff: Differ)
    requires ValidDiffer(diff)
    ensures ToolResultText(RedactToolResult(content, redacted, diff)) == redacted
    ensures Join(ToolTexts(RedactToolResult(content, redacted, diff))) == redacted
    ensures content.ListContent? && ToolTexts(content) != [] ==>
              ToolTexts(RedactToolResult(content, redacted, diff)) == Redistributed(ToolTexts(content), redacted, diff)
  {
    hide ValidDiffer, SubLeaves, Redistributed, ByKey, Join, ToolTexts, ReplaceSubBlocks, ToolResultText;
    ToolTextIsRead(RedactToolResult(content, redacted, diff));
    if content.ListContent? {
      SubLeavesAreTexts(content.blocks);
      if SubLeaves(content.blocks) == [] {
        AppendedText(content.blocks, redacted);
        AppendedToolText(content.blocks, redacted);
      } else {
        ReplacedText(content.blocks, redacted, diff);
        ListIsRead(content, redacted, diff);
      }
    } else {
      PlainToolText(RedactToolResult(content, redacted, diff));
    }
  }

  lemma PlainToolText(content: ToolContent)
    ensures content.NoContent? ==> ToolResultText(content) == ""
    ensures content.TextContent? ==> ToolResultText(content) == content.text
  {
  }

  lemma AppendedToolText(blocks: seq<SubBlock>, redacted: string)
    requires SubLeaves(blocks) == []
    ensures ToolResultText(ListContent(blocks)) == "" && ToolTexts(ListContent(blocks)) == []
    ensures ToolResultText(ListContent(blocks + [SubText(redacted, "")])) == redacted
  {
    AppendedText(blocks, redacted);
    SubLeavesAreTexts(blocks);
  }

  lemma ListIsRead(content: ToolContent, redacted: string, diff: Differ)
    requires ValidDiffer(diff) && content.ListContent? && SubLeaves(content.blocks) != []
    ensures ToolResultText(RedactToolResult(content, redacted, diff)) == redacted
    ensures ToolTexts(RedactToolResult(content, redacted, diff)) == Redistributed(ToolTexts(content), redacted, diff)
  {
    hide ValidDiffer, SubLeaves, Redistributed, ByKey, Relabel, DistinctKeys;
    var leaves := SubLeaves(content.blocks);
    var replacements := Redistributed(Texts(leaves), redacted, diff);
    var texts := ByKey(leaves, replacements);
    ReplacedText(content.blocks, redacted, diff);
    SubLeavesAreTexts(content.blocks);
    SubLeavesAreTexts(ReplaceSubBlocks(content.blocks, texts));
    SubLeavesOfReplaced(content.blocks, texts);
    RelabelledTexts(leaves, replacements);
  }

  // ---------------------------------------------------------------- read off a tool result

  /** The texts of a tool result: its text blocks from the first to the last, or the text that it is. */
  function ToolTexts(content: ToolContent): seq<string> {
    match content
    case NoContent => []
    case TextContent(text) => [text]
    case ListContent(blocks) => TextsOfSubs(blocks)
  }

  function TextsOfSubs(blocks: seq<SubBlock>): seq<string> {
    if blocks == [] then []
    else match blocks[0]
      case SubText(text, _) => [text] + TextsOfSubs(blocks[1..])
      case Image(_) => TextsOfSubs(blocks[1..])
  }

  lemma {:induction false} TextsOfMoreSubs(blocks: seq<SubBlock>, b: SubBlock)
    ensures TextsOfSubs(blocks + [b]) == TextsOfSubs(blocks) + if b.SubText? then [b.text] else []
  {
    if blocks == [] {
      assert [b][1..] == [];
    } else {
      TextsOfMoreSubs(blocks[1..], b);
      assert (blocks + [b])[1..] == blocks[1..] + [b];
    }
  }

  lemma {:induction false} SubLeavesAreTexts(blocks: seq<SubBlock>)
    ensures Texts(SubLeaves(blocks)) == TextsOfSubs(blocks)
  {
    hide DistinctKeys;
    if blocks != [] {
      var n := |blocks| - 1;
      SubLeavesAreTexts(blocks[..n]);
      TextsOfMoreSubs(blocks[..n], blocks[n]);
      assert blocks == blocks[..n] + [blocks[n]];
      var more := if blocks[n].SubText? then [Leaf(n, blocks[n].text)] else [];
      assert Texts(SubLeaves(blocks[..n]) + more) == Texts(SubLeaves(blocks[..n])) + Texts(more);
    }
  }

  lemma ToolTextIsRead(content: ToolContent)
    ensures ToolResultText(content) == Join(ToolTexts(content))
  {
    match content
    case NoContent =>
    case TextContent(text) => assert [text][..0] == [];
    case ListContent(blocks) => SubLeavesAreTexts(blocks);
  }

  /** The non-text blocks of a tool result, in order. */
  function Images(content: ToolContent): seq<SubBlock> {
    if content.ListContent? then ImagesOf(content.blocks) else []
  }

  function ImagesOf(blocks: seq<SubBlock>): seq<SubBlock> {
    if blocks == [] then []
    else ImagesOf(blocks[..|blocks| - 1]) + if blocks[|blocks| - 1].Image? then [blocks[|blocks| - 1]] else []
  }

  lemma {:induction false} ImagesOfReplaced(blocks: seq<SubBlock>, texts: map<nat, string>)
    ensures ImagesOf(ReplaceSubBlocks(blocks, texts)) == ImagesOf(blocks)
  {
    if blocks != [] {
      var n := |blocks| - 1;
      ImagesOfReplaced(blocks[..n], texts);
      assert ReplaceSubBlocks(blocks, texts)[..n] == ReplaceSubBlocks(blocks[..n], texts);
    }
  }

  lemma ToolResultKeepsImages(content: ToolContent, redacted: string, diff: Differ)
    requires ValidDiffer(diff)
    ensures Images(RedactToolResult(content, redacted, diff)) == Images(content)
  {
    if content.ListContent? {
      var leaves := SubLeaves(content.blocks);
      if leaves == [] {
        var longer := content.blocks + [SubText(redacted, "")];
        assert longer[..|content.blocks|] == content.blocks;
      } else {
        ImagesOfReplaced(content.blocks, ByKey(leaves, Redistributed(Texts(leaves), redacted, diff)));
      }
    }
  }

  // ---------------------------------------------------------------- the outer level: messages

  predicate Governed(b: Block) { b.TextBlock? || b.ToolResult? }

  function BlockText(b: Block): string {
    if b.TextBlock? then b.text else if b.ToolResult? then ToolResultText(b.content) else ""
  }

  function RedactBlock(b: Block, share: string, diff: Differ): Block
    requires ValidDiffer(diff)
  {
    if b.TextBlock? then b.(text := share)
    else if b.ToolResult? then b.(content := RedactToolResult(b.content, share, diff))
    else b
  }

  function BlockLeaves(blocks: seq<Block>): (leaves: seq<Leaf<nat>>)
    ensures forall i :: 0 <= i < |leaves| ==> leaves[i].key < |blocks| && Governed(blocks[leaves[i].key])
    ensures DistinctKeys(leaves)
  {
    if blocks == [] then []
    else
      var n := |blocks| - 1;
      BlockLeaves(blocks[..n]) + if Governed(blocks[n]) then [Leaf(n, BlockText(blocks[n]))] else []
  }

  function LeafTexts(content: Content): seq<string> {
    match content
    case Plain(text) => [text]
    case Blocks(blocks) => Texts(BlockLeaves(blocks))
  }

  function LastUser(messages: seq<Message>): (r: Option<nat>)
    ensures r.Some? ==> r.value < |messages| && messages[r.value].role == User
  {
    if messages == [] then None
    else if messages[|messages| - 1].role == User then Some(|messages| - 1)
    else LastUser(messages[..|messages| - 1])
  }

  function GovernedLeaves(messages: seq<Message>): seq<string> {
    match LastUser(messages)
    case None => []
    case Some(k) => LeafTexts(messages[k].content)
  }

  function GovernanceText(messages: seq<Message>): string { Join(GovernedLeaves(messages)) }

  function RedactBlocks(blocks: seq<Block>, texts: map<nat, string>, diff: Differ): (r: seq<Block>)
    requires ValidDiffer(diff)
    ensures |r| == |blocks|
  {
    seq(|blocks|, i requires 0 <= i < |blocks| =>
      if i in texts then RedactBlock(blocks[i], texts[i], diff) else blocks[i])
  }

  function RedactContent(content: Content, redacted: string, diff: Differ): Content
    requires ValidDiffer(diff)
  {
    var replacements := Redistributed(LeafTexts(content), redacted, diff);
    match content
    case Plain(_) => Plain(replacements[0])
    case Blocks(blocks) => Blocks(RedactBlocks(blocks, ByKey(BlockLeaves(blocks), replacements), diff))
  }

  function WithRedactedText(messages: seq<Message>, redacted: string, diff: Differ): (r: seq<Message>)
    requires ValidDiffer(diff)
    ensures |r| == |messages|
  {
    match LastUser(messages)
    case None => messages
    case Some(k) => messages[k := messages[k].(content := RedactContent(messages[k].content, redacted, diff))]
  }

  lemma {:induction false} LeavesOfRedacted(blocks: seq<Block>, texts: map<nat, string>, diff: Differ)
    requires ValidDiffer(diff)
    ensures BlockLeaves(RedactBlocks(blocks, texts, diff)) == Relabel(BlockLeaves(blocks), texts)
  {
    hide RedactToolResult, ToolResultText, ValidDiffer, DistinctKeys;
    if blocks != [] {
      var n := |blocks| - 1;
      LeavesOfRedacted(blocks[..n], texts, diff);
      assert RedactBlocks(blocks, texts, diff)[..n] == RedactBlocks(blocks[..n], texts, diff);
      if blocks[n].ToolResult? && n in texts {
        ToolResultRoundTrip(blocks[n].content, texts[n], diff);
      }
    }
  }

  lemma {:induction false} RedactedTexts(content: Content, redacted: string, diff: Differ)
    requires ValidDiffer(diff)
    ensures LeafTexts(RedactContent(content, redacted, diff))
         == Redistributed(LeafTexts(content), redacted, diff)
  {
    if content.Blocks? {
      var leaves := BlockLeaves(content.blocks);
      var replacements := Redistributed(Texts(leaves), redacted, diff);
      LeavesOfRedacted(content.blocks, ByKey(leaves, replacements), diff);
      RelabelledTexts(leaves, replacements);
    }
  }

  lemma {:induction false} LastUserStays(messages: seq<Message>, k: nat, m: Message)
    requires LastUser(messages) == Some(k) && m.role == User
    ensures LastUser(messages[k := m]) == Some(k)
    decreases |messages|
  {
    var n := |messages| - 1;
    if k < n {
      LastUserStays(messages[..n], k, m);
      assert messages[k := m][..n] == messages[..n][k := m];
    }
  }

  /** What governance reads after a redaction is exactly the redacted text, if there is any governed leaf. */
  lemma RedactionRoundTrip(messages: seq<Message>, redacted: string, diff: Differ)
    requires ValidDiffer(diff)
    ensures GovernanceText(WithRedactedText(messages, redacted, diff))
         == if HasGovernedText(messages) then redacted else ""
  {
    GovernedIffText(messages);
    if LastUser(messages).Some? {
      var k := LastUser(messages).value;
      var content := messages[k].content;
      RedactedTexts(content, redacted, diff);
      LastUserStays(messages, k, messages[k].(content := RedactContent(content, redacted, diff)));
      WriteBackConserves(LeafTexts(content), redacted, diff);
    }
  }

  /** `b'` is `b` up to governed text: kind, identifiers, flags and images in order are those of `b`. */
  ghost predicate SameShell(b: Block, b': Block) {
    match b
    case TextBlock(_, rest) => b'.TextBlock? && b'.rest == rest
    case ToolResult(id, content, isError) =>
      b'.ToolResult? && b'.toolUseId == id && b'.isError == isError && Images(b'.content) == Images(content)
    case _ => b' == b
  }

  ghost predicate SameShells(c: Content, c': Content) {
    (c.Plain? <==> c'.Plain?)
    && (c.Blocks? ==> |c.blocks| == |c'.blocks|
                      && forall j :: 0 <= j < |c.blocks| ==> SameShell(c.blocks[j], c'.blocks[j]))
  }

  lemma {:induction false} BlockKeepsShell(b: Block, share: string, diff: Differ)
    requires ValidDiffer(diff)
    ensures SameShell(b, RedactBlock(b, share, diff))
  {
    hide RedactToolResult, Images;
    if b.ToolResult? {
      ToolResultKeepsImages(b.content, share, diff);
    }
  }

  lemma ContentKeepsShells(content: Content, redacted: string, diff: Differ)
    requires ValidDiffer(diff)
    ensures SameShells(content, RedactContent(content, redacted, diff))
  {
    hide SameShell, RedactBlock, BlockLeaves, ByKey, ValidDiffer;
    match content
    case Plain(_) =>
    case Blocks(blocks) =>
      var texts := ByKey(BlockLeaves(blocks), Redistributed(LeafTexts(content), redacted, diff));
      forall j | 0 <= j < |blocks| ensures SameShell(blocks[j], RedactBlocks(blocks, texts, diff)[j]) {
        if j in texts {
          BlockKeepsShell(blocks[j], texts[j], diff);
        } else {
          SameBlock(blocks[j]);
        }
      }
  }

  lemma SameBlock(b: Block)
    ensures SameShell(b, b)
  {
  }

  /** Other messages are untouched; in the redacted one every block keeps its place and its shell. */
  lemma {:induction false} RedactionKeepsTheRest(messages: seq<Message>, redacted: string, diff: Differ, i: nat)
    requires ValidDiffer(diff) && i < |messages|
    ensures WithRedactedText(messages, redacted, diff)[i].role == messages[i].role
    ensures !IsLastUser(messages, i) ==> WithRedactedText(messages, redacted, diff)[i] == messages[i]
    ensures SameShells(messages[i].content, WithRedactedText(messages, redacted, diff)[i].content)
  {
    hide SameShell, RedactContent, ValidDiffer;
    LastUserFound(messages);
    var content := messages[i].content;
    ContentKeepsShells(content, redacted, diff);
    if content.Blocks? {
      forall j | 0 <= j < |content.blocks| ensures SameShell(content.blocks[j], content.blocks[j]) {
        SameBlock(content.blocks[j]);
      }
    }
  }

  // ---------------------------------------------------------------- read off the messages

  /** Message `k` is the last one from the user. */
  predicate IsLastUser(messages: seq<Message>, k: nat) {
    k < |messages| && messages[k].role == User && forall j :: k < j < |messages| ==> messages[j].role != User
  }

  /** The texts of a content: itself, or those of its text blocks and tool results from the first to the last. */
  function TextsOf(content: Content): seq<string> {
    match content
    case Plain(text) => [text]
    case Blocks(blocks) => TextsOfBlocks(blocks)
  }

  function TextsOfBlocks(blocks: seq<Block>): seq<string> {
    if blocks == [] then []
    else match blocks[0]
      case TextBlock(text, _) => [text] + TextsOfBlocks(blocks[1..])
      case ToolResult(_, content, _) => [Join(ToolTexts(content))] + TextsOfBlocks(blocks[1..])
      case _ => TextsOfBlocks(blocks[1..])
  }

  /** The last user message holds a text, if only an empty one. */
  ghost predicate HasGovernedText(messages: seq<Message>) {
    exists k: nat :: IsLastUser(messages, k) && TextsOf(messages[k].content) != []
  }

  lemma {:induction false} TextsOfMoreBlocks(blocks: seq<Block>, b: Block)
    ensures TextsOfBlocks(blocks + [b]) == TextsOfBlocks(blocks) + if Governed(b) then [BlockText(b)] else []
  {
    hide Join, ToolTexts, ToolResultText;
    if blocks == [] {
      assert [b][1..] == [];
      if b.ToolResult? {
        ToolTextIsRead(b.content);
      }
    } else {
      TextsOfMoreBlocks(blocks[1..], b);
      assert (blocks + [b])[1..] == blocks[1..] + [b];
    }
  }

  lemma {:induction false} BlockLeavesAreTexts(blocks: seq<Block>)
    ensures Texts(BlockLeaves(blocks)) == TextsOfBlocks(blocks)
  {
    hide DistinctKeys, BlockText;
    if blocks != [] {
      var n := |blocks| - 1;
      BlockLeavesAreTexts(blocks[..n]);
      TextsOfMoreBlocks(blocks[..n], blocks[n]);
      assert blocks == blocks[..n] + [blocks[n]];
      var more := if Governed(blocks[n]) then [Leaf(n, BlockText(blocks[n]))] else [];
      assert Texts(BlockLeaves(blocks[..n]) + more) == Texts(BlockLeaves(blocks[..n])) + Texts(more);
    }
  }

  lemma {:induction false} LeavesAreTexts(content: Content)
    ensures LeafTexts(content) == TextsOf(content)
  {
    if content.Blocks? {
      BlockLeavesAreTexts(content.blocks);
    }
  }

  lemma {:induction false} LastUserFound(messages: seq<Message>)
    ensures match LastUser(messages)
            case Some(k) => IsLastUser(messages, k)
            case None => forall j :: 0 <= j < |messages| ==> messages[j].role != User
  {
    if messages != [] {
      LastUserFound(messages[..|messages| - 1]);
    }
  }

  lemma {:induction false} GovernedIffText(messages: seq<Message>)
    ensures GovernedLeaves(messages) != [] <==> HasGovernedText(messages)
  {
    hide LeafTexts, TextsOf;
    LastUserFound(messages);
    if LastUser(messages).Some? {
      var k := LastUser(messages).value;
      LeavesAreTexts(messages[k].content);
      assert IsLastUser(messages, k);
    }
  }

  /**
   Exactly the last user message is governed: all its texts, in order, are read, and after a redaction they are the
   shares of the redacted text; nothing else changes.
   */
  lemma {:induction false} LastUserIsGoverned(messages: seq<Message>, k: nat, redacted: string, diff: Differ)
    requires ValidDiffer(diff) && IsLastUser(messages, k)
    ensures GovernanceText(messages) == Join(TextsOf(messages[k].content))
    ensures var after := WithRedactedText(messages, redacted, diff);
            IsLastUser(after, k) && (forall j :: 0 <= j < |messages| && j != k ==> after[j] == messages[j])
            && TextsOf(after[k].content) == Redistributed(TextsOf(messages[k].content), redacted, diff)
            && Join(TextsOf(after[k].content)) == (if TextsOf(messages[k].content) == [] then "" else redacted)
  {
    hide LeafTexts, TextsOf, RedactContent, ValidDiffer, Redistributed, Join;
    LastUserFound(messages);
    var content := messages[k].content;
    LeavesAreTexts(content);
    WriteBackConserves(LeafTexts(content), redacted, diff);
    NothingWritten(redacted, diff);
    RedactedTexts(content, redacted, diff);
    LeavesAreTexts(RedactContent(content, redacted, diff));
  }

  lemma NothingWritten(redacted: string, diff: Differ)
    requires ValidDiffer(diff)
    ensures Redistributed([], redacted, diff) == [] && Join([]) == ""
  {
    WriteBackConserves([], redacted, diff);
  }

  /** Without a user message nothing is governed and nothing changes. */
  lemma {:induction false} NoUserMessage(messages: seq<Message>, redacted: string, diff: Differ)
    requires ValidDiffer(diff) && forall j :: 0 <= j < |messages| ==> messages[j].role != User
    ensures GovernanceText(messages) == "" && WithRedactedText(messages, redacted, diff) == messages
  {
    LastUserFound(messages);
  }
}
