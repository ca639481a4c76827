/**
 Redaction of an Anthropic user message as the source does it: by assigning to the blocks of a deep copy
 (`_redact_tool_result_content`, `_replace_anthropic_governed_leaf`). Blocks are objects updated in place; the
 result is proved to be the one of module AnthropicPayload.
 */
module AnthropicInPlace {
  import opened WriteBack
  import opened KeyedLeaves
  import opened AnthropicPayload

  class BlockObject {
    var block: Block

    constructor (b: Block)
      ensures block == b
    {
      block := b;
    }
  }

  datatype ContentRef = PlainRef(text: string) | BlockRefs(refs: seq<BlockObject>)

  /** Exactly the share of the redacted text goes into the tool result, and nothing else changes. */
  method RedactToolResultContent(target: BlockObject, redacted: string, diff: Differ)
    requires ValidDiffer(diff) && target.block.ToolResult?
    modifies target
    ensures target.block == old(target.block).(content := RedactToolResult(old(target.block.content), redacted, diff))
    ensures BlockText(target.block) == redacted && SameShell(old(target.block), target.block)
  {
    ToolResultRoundTrip(target.block.content, redacted, diff);
    ToolResultKeepsImages(target.block.content, redacted, diff);
    hide ValidDiffer, Images, ToolResultText;
    var content := target.block.content;
    if content.TextContent? {
      target.block := target.block.(content := TextContent(redacted));
      return;
    }
    if content.NoContent? {
      if redacted != "" {
        target.block := target.block.(content := TextContent(redacted));
      }
      return;
    }
    var leaves := SubLeaves(content.blocks);
    if leaves == [] {
      if redacted != "" {
        target.block := target.block.(content := ListContent(content.blocks + [SubText(redacted, "")]));
      }
      return;
    }
    var replacements := RedistributeRedactedText(Texts(leaves), redacted, diff);
    var blocks := WriteSubBlocks(content.blocks, leaves, replacements);
    target.block := target.block.(content := ListContent(blocks));
  }

  method WriteSubBlocks(original: seq<SubBlock>, leaves: seq<Leaf<nat>>, replacements: seq<string>)
    returns (blocks: seq<SubBlock>)
    requires leaves == SubLeaves(original) && |leaves| == |replacements|
    ensures blocks == ReplaceSubBlocks(original, ByKey(leaves, replacements))
  {
    blocks := original;
    var i := 0;
    while i < |leaves|
      invariant 0 <= i <= |leaves|
      invariant blocks == ReplaceSubBlocks(original, ByKey(leaves[..i], replacements[..i]))
    {
      LeafIsText(original, i);
      var k := leaves[i].key;
      blocks := blocks[k := blocks[k].(text := replacements[i])];
      assert leaves[..i + 1][..i] == leaves[..i] && replacements[..i + 1][..i] == replacements[..i];
      i := i + 1;
    }
    assert leaves[..i] == leaves && replacements[..i] == replacements;
  }

  lemma {:induction false} LeafIsText(blocks: seq<SubBlock>, i: nat)
    requires i < |SubLeaves(blocks)|
    ensures SubLeaves(blocks)[i].key < |blocks| && blocks[SubLeaves(blocks)[i].key].SubText?
  {
    var n := |blocks| - 1;
    if i < |SubLeaves(blocks[..n])| {
      LeafIsText(blocks[..n], i);
    }
  }

  class MessageObject {
    var role: Role
    var content: ContentRef

    constructor (r: Role, c: ContentRef)
      ensures role == r && content == c
    {
      role, content := r, c;
    }

    ghost predicate Distinct()
      reads this
    {
      content.BlockRefs? ==> DistinctRefs(content.refs)
    }

    function View(): Message
      reads this, if content.BlockRefs? then content.refs else []
    {
      Message(role, match content
                    case PlainRef(text) => Plain(text)
                    case BlockRefs(refs) => Blocks(BlocksOf(refs)))
    }

    /** `with_redacted_text` on one message. */
    method WriteRedaction(redacted: string, diff: Differ)
      requires ValidDiffer(diff) && Distinct()
      modifies this, if content.BlockRefs? then content.refs else []
      ensures View() == old(View()).(content := RedactContent(old(View().content), redacted, diff))
      ensures content.BlockRefs? ==> content == old(content)
    {
      hide ValidDiffer, RedactBlocks, Redistributed;
      if content.PlainRef? {
        var replacements := RedistributeRedactedText([content.text], redacted, diff);
        content := PlainRef(replacements[0]);
        return;
      }
      WriteBlocks(content.refs, redacted, diff);
    }
  }

  ghost predicate DistinctRefs(refs: seq<BlockObject>) {
    forall i, j :: 0 <= i < j < |refs| ==> refs[i] != refs[j]
  }

  /** The loop over the leaves of one message and their replacements. */
  method WriteBlocks(refs: seq<BlockObject>, redacted: string, diff: Differ)
    requires ValidDiffer(diff) && DistinctRefs(refs)
    modifies refs
    ensures Blocks(BlocksOf(refs)) == RedactContent(Blocks(old(BlocksOf(refs))), redacted, diff)
  {
    hide ValidDiffer, RedactToolResult, Redistributed, RedactBlock, RedactBlocks, DistinctKeys;
    ghost var before := BlocksOf(refs);
    var leaves := BlockLeaves(BlocksOf(refs));
    var replacements := RedistributeRedactedText(Texts(leaves), redacted, diff);
    var i := 0;
    NothingRedacted(before, diff);
    while i < |leaves|
      invariant 0 <= i <= |leaves|
      invariant BlocksOf(refs) == RedactBlocks(before, ByKey(leaves[..i], replacements[..i]), diff)
    {
      var k := leaves[i].key;
      ghost var now := BlocksOf(refs);
      RedactOneMore(before, leaves, replacements, i, diff);
      ReplaceLeaf(refs[k], replacements[i], diff);
      assert BlocksOf(refs) == now[k := RedactBlock(before[k], replacements[i], diff)];
      i := i + 1;
    }
    assert leaves[..i] == leaves && replacements[..i] == replacements;
  }

  function BlocksOf(refs: seq<BlockObject>): (r: seq<Block>)
    reads refs
    ensures |r| == |refs|
  {
    seq(|refs|, i requires 0 <= i < |refs| reads refs => refs[i].block)
  }

  method ReplaceLeaf(target: BlockObject, share: string, diff: Differ)
    requires ValidDiffer(diff) && Governed(target.block)
    modifies target
    ensures target.block == RedactBlock(old(target.block), share, diff)
  {
    if target.block.TextBlock? {
      target.block := target.block.(text := share);
    } else {
      RedactToolResultContent(target, share, diff);
    }
  }

  /** Writing one more leaf changes that block, which was still as before, and no other. */
  lemma RedactOneMore(before: seq<Block>, leaves: seq<Leaf<nat>>, replacements: seq<string>, i: nat, diff: Differ)
    requires ValidDiffer(diff) && |leaves| == |replacements| && i < |leaves| && DistinctKeys(leaves)
    requires leaves[i].key < |before|
    ensures var k := leaves[i].key;
            var now := RedactBlocks(before, ByKey(leaves[..i], replacements[..i]), diff);
            now[k] == before[k]
            && RedactBlocks(before, ByKey(leaves[..i + 1], replacements[..i + 1]), diff)
               == now[k := RedactBlock(before[k], replacements[i], diff)]
  {
    hide RedactBlock, ValidDiffer;
    LookupByKey(leaves[..i], replacements[..i]);
    assert leaves[..i + 1][..i] == leaves[..i] && replacements[..i + 1][..i] == replacements[..i];
  }

  lemma NothingRedacted(before: seq<Block>, diff: Differ)
    requires ValidDiffer(diff)
    ensures RedactBlocks(before, map[], diff) == before
  {
  }
}
