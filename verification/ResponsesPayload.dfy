/** Governed text of an OpenAI Responses request and its translation to Chat (proxy/app/responses_compat.py). */
module ResponsesPayload {
  import opened Wrappers
  import opened WriteBack
  import opened KeyedLeaves

  /** `rest` stands for the fields that are copied along. */
  datatype Part = Part(kind: string, text: Option<string>, rest: string)

  datatype Content = Plain(text: string) | Parts(parts: seq<Part>)

  datatype Item =
    | MessageItem(role: string, content: Content, rest: string)
    | OtherItem(kind: string, body: string)

  datatype Input = TextInput(text: string) | Items(items: seq<Item>)

  /** Item index, and part index unless the content is a plain string. */
  type Key = (nat, Option<nat>)

  /** ASCII lower-casing: no other letter lowers to one of the role names compared with. */
  function Lower(s: string): string {
    if s == "" then ""
    else [if 'A' <= s[0] <= 'Z' then (s[0] as int + 32) as char else s[0]] + Lower(s[1..])
  }

  predicate IsText(p: Part) { p.kind == "input_text" || p.kind == "text" }

  function PartText(p: Part): string { if p.text.Some? then p.text.value else "" }

  predicate Governed(item: Item) { item.MessageItem? && Lower(item.role) == "user" }

  function PartLeaves(i: nat, parts: seq<Part>): (leaves: seq<Leaf<Key>>)
    ensures forall k :: 0 <= k < |leaves| ==>
              leaves[k].key.0 == i && leaves[k].key.1.Some? && leaves[k].key.1.value < |parts|
    ensures DistinctKeys(leaves)
  {
    if parts == [] then []
    else
      var n := |parts| - 1;
      PartLeaves(i, parts[..n]) + if IsText(parts[n]) then [Leaf((i, Some(n)), PartText(parts[n]))] else []
  }

  function ItemLeaves(i: nat, item: Item): (leaves: seq<Leaf<Key>>)
    ensures forall k :: 0 <= k < |leaves| ==> leaves[k].key.0 == i
    ensures DistinctKeys(leaves)
  {
    if !Governed(item) then []
    else match item.content
      case Plain(text) => [Leaf((i, None), text)]
      case Parts(parts) => PartLeaves(i, parts)
  }

  function ListLeaves(items: seq<Item>): (leaves: seq<Leaf<Key>>)
    ensures forall k :: 0 <= k < |leaves| ==> leaves[k].key.0 < |items|
    ensures DistinctKeys(leaves)
  {
    if items == [] then []
    else ListLeaves(items[..|items| - 1]) + ItemLeaves(|items| - 1, items[|items| - 1])
  }

  function GovernedTexts(input: Input): seq<string> {
    match input
    case TextInput(text) => [text]
    case Items(items) => Texts(ListLeaves(items))
  }

  function GovernanceText(input: Input): string { Join(GovernedTexts(input)) }

  function ReplaceParts(i: nat, parts: seq<Part>, texts: map<Key, string>): (r: seq<Part>)
    ensures |r| == |parts|
  {
    seq(|parts|, j requires 0 <= j < |parts| =>
      if (i, Some(j)) in texts then parts[j].(text := Some(texts[(i, Some(j))])) else parts[j])
  }

  function ReplaceItem(i: nat, item: Item, texts: map<Key, string>): Item {
    if !item.MessageItem? then item
    else if (i, None) in texts then item.(content := Plain(texts[(i, None)]))
    else if item.content.Parts? then item.(content := Parts(ReplaceParts(i, item.content.parts, texts)))
    else item
  }

  function ReplaceItems(items: seq<Item>, texts: map<Key, string>): (r: seq<Item>)
    ensures |r| == |items|
  {
    seq(|items|, i requires 0 <= i < |items| => ReplaceItem(i, items[i], texts))
  }

  function WithRedactedText(input: Input, redacted: string, diff: Differ): Input
    requires ValidDiffer(diff)
  {
    var replacements := Redistributed(GovernedTexts(input), redacted, diff);
    match input
    case TextInput(_) => TextInput(replacements[0])
    case Items(items) => Items(ReplaceItems(items, ByKey(ListLeaves(items), replacements)))
  }

  /** Every key of the dictionary that belongs to item `i` is one of its leaves. */
  ghost predicate OnlyLeafKeys(i: nat, item: Item, texts: map<Key, string>) {
    forall k :: k in texts && k.0 == i ==> exists j :: 0 <= j < |ItemLeaves(i, item)| && ItemLeaves(i, item)[j].key == k
  }

  lemma {:induction false} LeavesOfParts(i: nat, parts: seq<Part>, texts: map<Key, string>)
    ensures PartLeaves(i, ReplaceParts(i, parts, texts)) == Relabel(PartLeaves(i, parts), texts)
  {
    if parts != [] {
      var n := |parts| - 1;
      LeavesOfParts(i, parts[..n], texts);
      assert ReplaceParts(i, parts, texts)[..n] == ReplaceParts(i, parts[..n], texts);
    }
  }

  lemma NoPlainKey(i: nat, item: Item, texts: map<Key, string>)
    requires OnlyLeafKeys(i, item, texts) && item.MessageItem? && item.content.Parts?
    ensures (i, None) !in texts
  {
    forall k | k in texts && k.0 == i ensures k.1.Some? {
      var j :| 0 <= j < |ItemLeaves(i, item)| && ItemLeaves(i, item)[j].key == k;
    }
  }

  lemma LeavesOfItem(i: nat, item: Item, texts: map<Key, string>)
    requires OnlyLeafKeys(i, item, texts)
    ensures ItemLeaves(i, ReplaceItem(i, item, texts)) == Relabel(ItemLeaves(i, item), texts)
  {
    if item.MessageItem? && item.content.Parts? {
      NoPlainKey(i, item, texts);
      LeavesOfParts(i, item.content.parts, texts);
    }
  }

  lemma {:induction false} LeavesOfList(items: seq<Item>, texts: map<Key, string>)
    requires forall i :: 0 <= i < |items| ==> OnlyLeafKeys(i, items[i], texts)
    ensures ListLeaves(ReplaceItems(items, texts)) == Relabel(ListLeaves(items), texts)
  {
    hide OnlyLeafKeys, ItemLeaves, ReplaceItem, DistinctKeys;
    if items != [] {
      var n := |items| - 1;
      LeavesOfList(items[..n], texts);
      LeavesOfItem(n, items[n], texts);
      assert ReplaceItems(items, texts)[..n] == ReplaceItems(items[..n], texts);
      RelabelConcat(ListLeaves(items[..n]), ItemLeaves(n, items[n]), texts);
    }
  }

  lemma {:induction false} LeafBelongs(items: seq<Item>, j: nat)
    requires j < |ListLeaves(items)|
    ensures var leaf := ListLeaves(items)[j];
            leaf.key.0 < |items| && leaf in ItemLeaves(leaf.key.0, items[leaf.key.0])
  {
    hide ItemLeaves, DistinctKeys;
    var n := |items| - 1;
    if j < |ListLeaves(items[..n])| {
      LeafBelongs(items[..n], j);
    }
  }

  lemma {:induction false} DictionaryHasLeafKeys(items: seq<Item>, replacements: seq<string>, i: nat)
    requires |replacements| == |ListLeaves(items)| && i < |items|
    ensures OnlyLeafKeys(i, items[i], ByKey(ListLeaves(items), replacements))
  {
    hide ItemLeaves;
    var leaves := ListLeaves(items);
    var texts := ByKey(leaves, replacements);
    LookupByKey(leaves, replacements);
    forall k | k in texts && k.0 == i
      ensures exists j :: 0 <= j < |ItemLeaves(i, items[i])| && ItemLeaves(i, items[i])[j].key == k
    {
      var m :| 0 <= m < |leaves| && leaves[m].key == k;
      LeafBelongs(items, m);
    }
  }

  lemma {:induction false} RedactedTexts(input: Input, redacted: string, diff: Differ)
    requires ValidDiffer(diff)
    ensures GovernedTexts(WithRedactedText(input, redacted, diff))
         == Redistributed(GovernedTexts(input), redacted, diff)
  {
    if input.Items? {
      var leaves := ListLeaves(input.items);
      var replacements := Redistributed(Texts(leaves), redacted, diff);
      forall i | 0 <= i < |input.items| ensures OnlyLeafKeys(i, input.items[i], ByKey(leaves, replacements)) {
        DictionaryHasLeafKeys(input.items, replacements, i);
      }
      LeavesOfList(input.items, ByKey(leaves, replacements));
      RelabelledTexts(leaves, replacements);
    }
  }

  /** What governance reads after a redaction is exactly the redacted text, if there is any governed leaf. */
  lemma RedactionRoundTrip(input: Input, redacted: string, diff: Differ)
    requires ValidDiffer(diff)
    ensures GovernanceText(WithRedactedText(input, redacted, diff))
         == if GovernedTexts(input) != [] then redacted else ""
  {
    RedactedTexts(input, redacted, diff);
    WriteBackConserves(GovernedTexts(input), redacted, diff);
  }

  /** Ungoverned items are untouched; in governed ones every part keeps its place and its other fields. */
  lemma {:induction false} RedactionKeepsTheRest(items: seq<Item>, redacted: string, diff: Differ, i: nat)
    requires ValidDiffer(diff) && i < |items|
    ensures var r := WithRedactedText(Items(items), redacted, diff);
            r.Items? && |r.items| == |items|
            && (!Governed(items[i]) ==> r.items[i] == items[i])
            && (Governed(items[i]) ==>
                  r.items[i].MessageItem? && r.items[i].role == items[i].role && r.items[i].rest == items[i].rest
                  && (items[i].content.Parts? ==> SameParts(items[i].content, r.items[i].content)))
  {
    var leaves := ListLeaves(items);
    var replacements := Redistributed(Texts(leaves), redacted, diff);
    DictionaryHasLeafKeys(items, replacements, i);
    KeepsItem(i, items[i], ByKey(leaves, replacements));
  }

  ghost predicate SameParts(a: Content, b: Content) {
    a.Parts? && b.Parts? && |a.parts| == |b.parts|
    && forall j :: 0 <= j < |a.parts| ==>
         a.parts[j] == b.parts[j]
         || (IsText(a.parts[j]) && a.parts[j].kind == b.parts[j].kind && a.parts[j].rest == b.parts[j].rest)
  }

  lemma KeepsItem(i: nat, item: Item, texts: map<Key, string>)
    requires OnlyLeafKeys(i, item, texts)
    ensures !Governed(item) ==> ReplaceItem(i, item, texts) == item
    ensures Governed(item) && item.content.Parts? ==>
              ReplaceItem(i, item, texts).MessageItem? && SameParts(item.content, ReplaceItem(i, item, texts).content)
  {
    if item.MessageItem? && item.content.Parts? {
      var parts := item.content.parts;
      forall j | 0 <= j < |parts| && (i, Some(j)) in texts ensures IsText(parts[j]) && Governed(item) {
        var m :| 0 <= m < |ItemLeaves(i, item)| && ItemLeaves(i, item)[m].key == (i, Some(j));
        PartLeafIsText(i, parts, m);
      }
      NoPlainKey(i, item, texts);
      if !Governed(item) {
        assert ReplaceParts(i, parts, texts) == parts;
      }
    }
  }

  lemma {:induction false} PartLeafIsText(i: nat, parts: seq<Part>, m: nat)
    requires m < |PartLeaves(i, parts)|
    ensures var k := PartLeaves(i, parts)[m].key.1; k.Some? && k.value < |parts| && IsText(parts[k.value])
  {
    var n := |parts| - 1;
    if m < |PartLeaves(i, parts[..n])| {
      PartLeafIsText(i, parts[..n], m);
    }
  }

  // ---------------------------------------------------------------- translation to Chat

  datatype ChatMessage = ChatMessage(role: string, content: string)

  datatype CompatError = UnsupportedItem | UnsupportedRole | UnsupportedPart | MissingText | NoMessages

  function PartsToText(parts: seq<Part>): Result<string, CompatError> {
    if parts == [] then Ok("")
    else match PartsToText(parts[..|parts| - 1])
      case Err(e) => Err(e)
      case Ok(text) =>
        var p := parts[|parts| - 1];
        if !IsText(p) then Err(UnsupportedPart)
        else if p.text.None? then Err(MissingText)
        else Ok(text + p.text.value)
  }

  function ContentToText(content: Content): Result<string, CompatError> {
    match content
    case Plain(text) => Ok(text)
    case Parts(parts) => PartsToText(parts)
  }

  function ItemToChat(item: Item): Result<ChatMessage, CompatError> {
    if !item.MessageItem? then Err(UnsupportedItem)
    else
      var lowered := Lower(item.role);
      var role := if lowered == "developer" then "system" else lowered;
      if role != "system" && role != "user" && role != "assistant" then Err(UnsupportedRole)
      else match ContentToText(item.content)
        case Err(e) => Err(e)
        case Ok(text) => Ok(ChatMessage(role, text))
  }

  function ItemsToChat(items: seq<Item>): Result<seq<ChatMessage>, CompatError> {
    if items == [] then Ok([])
    else match ItemsToChat(items[..|items| - 1])
      case Err(e) => Err(e)
      case Ok(done) =>
        match ItemToChat(items[|items| - 1])
        case Err(e) => Err(e)
        case Ok(m) => Ok(done + [m])
  }

  /** The `messages` of the chat body; `instructions` become a system message in front. */
  function ToChat(instructions: Option<Content>, input: Input): Result<seq<ChatMessage>, CompatError> {
    var system := match instructions
                  case None => Ok([])
                  case Some(content) =>
                    (match ContentToText(content)
                     case Err(e) => Err(e)
                     case Ok(text) => Ok([ChatMessage("system", text)]));
    if system.Err? then system
    else if Turns(input).Err? then Turns(input)
    else if system.value + Turns(input).value == [] then Err(NoMessages)
    else Ok(system.value + Turns(input).value)
  }

  /** The contents of all user messages, in order. */
  function UserText(messages: seq<ChatMessage>): string {
    if messages == [] then ""
    else UserText(messages[..|messages| - 1])
         + if messages[|messages| - 1].role == "user" then messages[|messages| - 1].content else ""
  }

  lemma {:induction false} PartsTextIsGoverned(i: nat, parts: seq<Part>)
    requires PartsToText(parts).Ok?
    ensures PartsToText(parts).value == Join(Texts(PartLeaves(i, parts)))
  {
    hide DistinctKeys;
    if parts != [] {
      var n := |parts| - 1;
      PartsTextIsGoverned(i, parts[..n]);
      var before := Texts(PartLeaves(i, parts[..n]));
      assert Texts(PartLeaves(i, parts)) == before + [PartText(parts[n])];
      assert (before + [PartText(parts[n])])[..|before|] == before;
    }
  }

  lemma {:induction false} JoinConcat(a: seq<string>, b: seq<string>)
    ensures Join(a + b) == Join(a) + Join(b)
    decreases |b|
  {
    if b == [] {
      assert a + b == a;
    } else {
      var n := |b| - 1;
      JoinConcat(a, b[..n]);
      assert (a + b)[..|a| + n] == a + b[..n] && (a + b)[|a| + n] == b[n];
      Associate(Join(a), Join(b[..n]), b[n]);
    }
  }

  lemma ItemTextIsGoverned(i: nat, item: Item)
    requires ItemToChat(item).Ok?
    ensures (if ItemToChat(item).value.role == "user" then ItemToChat(item).value.content else "")
         == Join(Texts(ItemLeaves(i, item)))
  {
    if Governed(item) {
      match item.content
      case Parts(parts) => PartsTextIsGoverned(i, parts);
      case Plain(text) =>
        assert Texts(ItemLeaves(i, item)) == [text];
        assert [text][..0] == [];
    }
  }

  lemma {:induction false} ChatTextIsGoverned(items: seq<Item>)
    requires ItemsToChat(items).Ok?
    ensures UserText(ItemsToChat(items).value) == Join(Texts(ListLeaves(items)))
  {
    hide DistinctKeys, ItemToChat, ItemLeaves, Join;
    if items == [] {
      assert Texts(ListLeaves(items)) == [];
      JoinNothing();
    } else {
      var n := |items| - 1;
      ChatTextIsGoverned(items[..n]);
      ItemTextIsGoverned(n, items[n]);
      var done := ItemsToChat(items[..n]).value;
      assert ItemsToChat(items).value[..|done|] == done;
      assert Texts(ListLeaves(items)) == Texts(ListLeaves(items[..n])) + Texts(ItemLeaves(n, items[n]));
      JoinConcat(Texts(ListLeaves(items[..n])), Texts(ItemLeaves(n, items[n])));
    }
  }

  lemma JoinNothing()
    ensures Join([]) == ""
  {
  }

  lemma {:induction false} SystemInFront(system: ChatMessage, turns: seq<ChatMessage>)
    requires system.role != "user"
    ensures UserText([system] + turns) == UserText(turns)
    decreases |turns|
  {
    if turns == [] {
      assert [system][..0] == [] && [system] + turns == [system];
    } else {
      SystemInFront(system, turns[..|turns| - 1]);
      assert ([system] + turns)[..|turns|] == [system] + turns[..|turns| - 1];
    }
  }

  function Turns(input: Input): Result<seq<ChatMessage>, CompatError> {
    match input
    case TextInput(text) => Ok([ChatMessage("user", text)])
    case Items(items) => ItemsToChat(items)
  }

  lemma TurnsCarryGovernedText(input: Input)
    requires Turns(input).Ok?
    ensures UserText(Turns(input).value) == GovernanceText(input)
  {
    match input
    case Items(items) => ChatTextIsGoverned(items);
    case TextInput(text) =>
      var turn := ChatMessage("user", text);
      assert [turn][..0] == [] && [text][..0] == [];
      assert UserText([turn]) == UserText([]) + text && Join([text]) == Join([]) + text;
  }

  /** A translated request's user messages hold exactly the governed text. */
  lemma {:induction false} ChatCarriesGovernedText(instructions: Option<Content>, input: Input)
    requires ToChat(instructions, input).Ok?
    ensures UserText(ToChat(instructions, input).value) == GovernanceText(input)
  {
    hide Turns, ContentToText, UserText, GovernanceText;
    TurnsCarryGovernedText(input);
    var turns := Turns(input).value;
    match instructions
    case None => assert [] + turns == turns;
    case Some(content) => SystemInFront(ChatMessage("system", ContentToText(content).value), turns);
  }

  /**
   When a redacted request can be translated to Chat at all, its user messages hold exactly the redacted text,
   in order.
   */
  lemma TranslationCarriesRedaction(instructions: Option<Content>, input: Input, redacted: string, diff: Differ)
    requires ValidDiffer(diff) && GovernedTexts(input) != []
    requires ToChat(instructions, WithRedactedText(input, redacted, diff)).Ok?
    ensures UserText(ToChat(instructions, WithRedactedText(input, redacted, diff)).value) == redacted
  {
    hide ToChat, WithRedactedText, UserText;
    ChatCarriesGovernedText(instructions, WithRedactedText(input, redacted, diff));
    RedactionRoundTrip(input, redacted, diff);
  }

  // ---------------------------------------------------------------- read off the request

  /** The lower-case letter `t`, or its capital. */
  predicate SameLetter(c: char, t: char) {
    c == t || ('a' <= t <= 'z' && c as int == t as int - 32)
  }

  /** `s` is the lower-case word `t`, in whatever case its letters are. */
  predicate IsWord(s: string, t: string) {
    |s| == |t| && forall i :: 0 <= i < |s| ==> SameLetter(s[i], t[i])
  }

  lemma {:induction false} LowerIsWord(s: string, t: string)
    requires forall i :: 0 <= i < |t| ==> 'a' <= t[i] <= 'z'
    ensures Lower(s) == t <==> IsWord(s, t)
  {
    LowerLength(s);
    if s != "" && |s| == |t| {
      LowerIsWord(s[1..], t[1..]);
      assert t == [t[0]] + t[1..];
      assert Lower(s)[1..] == Lower(s[1..]);
      if IsWord(s[1..], t[1..]) && SameLetter(s[0], t[0]) {
        forall i | 0 <= i < |s| ensures SameLetter(s[i], t[i]) {
          if i > 0 {
            assert s[i] == s[1..][i - 1] && t[i] == t[1..][i - 1];
          }
        }
      }
    }
  }

  lemma {:induction false} LowerLength(s: string)
    ensures |Lower(s)| == |s|
  {
    if s != "" {
      LowerLength(s[1..]);
    }
  }

  /** The texts of a content: itself, or those of its text parts from the first to the last. */
  function TextsOf(content: Content): seq<string> {
    match content
    case Plain(text) => [text]
    case Parts(parts) => TextsOfParts(parts)
  }

  function TextsOfParts(parts: seq<Part>): seq<string> {
    if parts == [] then []
    else if parts[0].kind != "input_text" && parts[0].kind != "text" then TextsOfParts(parts[1..])
    else [if parts[0].text.Some? then parts[0].text.value else ""] + TextsOfParts(parts[1..])
  }

  /** The texts of all messages from the user, or the input that is a text. */
  function UserTexts(input: Input): seq<string> {
    match input
    case TextInput(text) => [text]
    case Items(items) => TextsOfItems(items)
  }

  function TextsOfItems(items: seq<Item>): seq<string> {
    if items == [] then []
    else match items[0]
      case MessageItem(role, content, _) =>
        (if IsWord(role, "user") then TextsOf(content) else []) + TextsOfItems(items[1..])
      case OtherItem(_, _) => TextsOfItems(items[1..])
  }

  lemma {:induction false} TextsOfMoreParts(parts: seq<Part>, p: Part)
    ensures TextsOfParts(parts + [p]) == TextsOfParts(parts) + if IsText(p) then [PartText(p)] else []
  {
    if parts == [] {
      assert [p][1..] == [];
    } else {
      TextsOfMoreParts(parts[1..], p);
      assert (parts + [p])[1..] == parts[1..] + [p];
    }
  }

  lemma {:induction false} PartLeavesAreTexts(i: nat, parts: seq<Part>)
    ensures Texts(PartLeaves(i, parts)) == TextsOfParts(parts)
  {
    hide DistinctKeys, IsText, PartText;
    if parts != [] {
      var n := |parts| - 1;
      PartLeavesAreTexts(i, parts[..n]);
      TextsOfMoreParts(parts[..n], parts[n]);
      assert parts == parts[..n] + [parts[n]];
      var more := if IsText(parts[n]) then [Leaf((i, Some(n)), PartText(parts[n]))] else [];
      assert Texts(PartLeaves(i, parts[..n]) + more) == Texts(PartLeaves(i, parts[..n])) + Texts(more);
    }
  }

  /** What one item adds. */
  function TextsOfItem(item: Item): seq<string> {
    if item.MessageItem? && IsWord(item.role, "user") then TextsOf(item.content) else []
  }

  lemma {:induction false} TextsOfMoreItems(items: seq<Item>, item: Item)
    ensures TextsOfItems(items + [item]) == TextsOfItems(items) + TextsOfItem(item)
  {
    hide TextsOf, IsWord;
    if items == [] {
      assert [item][1..] == [];
    } else {
      TextsOfMoreItems(items[1..], item);
      assert (items + [item])[1..] == items[1..] + [item];
    }
  }

  lemma ItemLeavesAreTexts(i: nat, item: Item)
    ensures Texts(ItemLeaves(i, item)) == TextsOfItem(item)
  {
    hide Lower, IsWord;
    if item.MessageItem? {
      LowerIsWord(item.role, "user");
      if item.content.Parts? {
        PartLeavesAreTexts(i, item.content.parts);
      }
    }
  }

  lemma {:induction false} ListLeavesAreTexts(items: seq<Item>)
    ensures Texts(ListLeaves(items)) == TextsOfItems(items)
  {
    hide DistinctKeys, ItemLeaves, TextsOfItem;
    if items != [] {
      var n := |items| - 1;
      ListLeavesAreTexts(items[..n]);
      TextsOfMoreItems(items[..n], items[n]);
      ItemLeavesAreTexts(n, items[n]);
      assert items == items[..n] + [items[n]];
      assert Texts(ListLeaves(items)) == Texts(ListLeaves(items[..n])) + Texts(ItemLeaves(n, items[n]));
    }
  }

  lemma {:induction false} GovernedAreUserTexts(input: Input)
    ensures GovernedTexts(input) == UserTexts(input)
  {
    if input.Items? {
      ListLeavesAreTexts(input.items);
    }
  }

  /**
   Exactly the user's messages are governed: all their texts, in order, are read, and after a redaction they are the
   shares of the redacted text.
   */
  lemma {:induction false} UserIsGoverned(input: Input, redacted: string, diff: Differ)
    requires ValidDiffer(diff)
    ensures GovernanceText(input) == Join(UserTexts(input))
    ensures var after := WithRedactedText(input, redacted, diff);
            UserTexts(after) == Redistributed(UserTexts(input), redacted, diff)
            && Join(UserTexts(after)) == (if UserTexts(input) == [] then "" else redacted)
  {
    hide GovernedTexts, UserTexts, WithRedactedText, Join, Redistributed, ValidDiffer;
    GovernedAreUserTexts(input);
    GovernedAreUserTexts(WithRedactedText(input, redacted, diff));
    RedactedTexts(input, redacted, diff);
    WriteBackConserves(GovernedTexts(input), redacted, diff);
    WriteBackConserves([], redacted, diff);
    JoinNothing();
  }

  /** The role that Chat knows for a role. */
  predicate ChatRole(role: string, chat: string) {
    || (chat == "user" && IsWord(role, "user"))
    || (chat == "assistant" && IsWord(role, "assistant"))
    || (chat == "system" && (IsWord(role, "system") || IsWord(role, "developer")))
  }

  /** Item by item: a translated request has one message for each, of its role and with all its text. */
  lemma {:induction false} TranslatedItem(items: seq<Item>, i: nat)
    requires i < |items| && ItemsToChat(items).Ok?
    ensures |ItemsToChat(items).value| == |items| && items[i].MessageItem?
    ensures var m := ItemsToChat(items).value[i];
            ChatRole(items[i].role, m.role) && m.content == Join(TextsOf(items[i].content))
    decreases |items|
  {
    hide ItemToChat, ChatRole, Join, TextsOf;
    var n := |items| - 1;
    if n > 0 {
      TranslatedItem(items[..n], if i < n then i else 0);
    }
    if i == n {
      ItemIsTranslated(items[n]);
    }
  }

  lemma ItemIsTranslated(item: Item)
    requires ItemToChat(item).Ok?
    ensures item.MessageItem? && ChatRole(item.role, ItemToChat(item).value.role)
    ensures ItemToChat(item).value.content == Join(TextsOf(item.content))
  {
    hide Lower, IsWord, Join;
    LowerIsWord(item.role, "user");
    LowerIsWord(item.role, "assistant");
    LowerIsWord(item.role, "system");
    LowerIsWord(item.role, "developer");
    match item.content
    case Plain(text) => JoinOne(text);
    case Parts(parts) =>
      PartsTextIsGoverned(0, parts);
      PartLeavesAreTexts(0, parts);
  }

  /** The instructions come first, as a system message with all their text; a text input is one user message. */
  lemma {:induction false} InstructionsComeFirst(instructions: Option<Content>, input: Input)
    requires ToChat(instructions, input).Ok?
    ensures Turns(input).Ok?
    ensures ToChat(instructions, input).value
         == (match instructions case None => [] case Some(c) => [ChatMessage("system", Join(TextsOf(c)))])
            + Turns(input).value
    ensures input.TextInput? ==> Turns(input) == Ok([ChatMessage("user", input.text)])
    ensures input.Items? ==> Turns(input) == ItemsToChat(input.items)
  {
    hide Join, TextsOf, PartsToText;
    if instructions.Some? {
      match instructions.value
      case Plain(text) => PlainTexts(text);
      case Parts(parts) =>
        PartsTextIsGoverned(0, parts);
        PartLeavesAreTexts(0, parts);
        TextsOfPartList(parts);
    }
  }

  lemma PlainTexts(text: string)
    ensures Join(TextsOf(Plain(text))) == text
  {
    JoinOne(text);
  }

  lemma TextsOfPartList(parts: seq<Part>)
    ensures TextsOf(Parts(parts)) == TextsOfParts(parts)
  {
  }

  lemma JoinOne(text: string)
    ensures Join([text]) == text
  {
    assert [text][..0] == [];
  }

  // ---------------------------------------------------------------- what cannot be translated

  /** A part without text that Chat can take, and the error for it. */
  predicate PartFails(p: Part, e: CompatError) {
    if p.kind != "input_text" && p.kind != "text" then e == UnsupportedPart else p.text.None? && e == MissingText
  }

  /** The first part that fails. */
  predicate PartsFail(parts: seq<Part>, i: nat, e: CompatError) {
    i < |parts| && PartFails(parts[i], e) && forall j :: 0 <= j < i ==> PartIsFine(parts[j])
  }

  predicate PartIsFine(p: Part) {
    (p.kind == "input_text" || p.kind == "text") && p.text.Some?
  }

  predicate ContentIsFine(content: Content) {
    content.Parts? ==> forall j :: 0 <= j < |content.parts| ==> PartIsFine(content.parts[j])
  }

  ghost predicate ContentFails(content: Content, e: CompatError) {
    content.Parts? && exists i: nat :: PartsFail(content.parts, i, e)
  }

  /** What is wrong with an item: it is no message, its role is unknown to Chat, or a part of it fails. */
  ghost predicate ItemFails(item: Item, e: CompatError) {
    if item.OtherItem? then e == UnsupportedItem
    else if forall chat :: !ChatRole(item.role, chat) then e == UnsupportedRole
    else ContentFails(item.content, e)
  }

  lemma {:induction false} PartsToTextFails(parts: seq<Part>)
    ensures PartsToText(parts).Ok? <==> forall j :: 0 <= j < |parts| ==> PartIsFine(parts[j])
    ensures PartsToText(parts).Err? ==> exists i: nat :: PartsFail(parts, i, PartsToText(parts).error)
  {
    if parts != [] {
      var n := |parts| - 1;
      var front := parts[..n];
      PartsToTextFails(front);
      assert forall j :: 0 <= j < n ==> front[j] == parts[j];
      if PartsToText(front).Err? {
        var e := PartsToText(front).error;
        var i: nat :| PartsFail(front, i, e);
        assert PartsFail(parts, i, e);
      } else if PartsToText(parts).Err? {
        assert PartsFail(parts, n, PartsToText(parts).error);
      }
    }
  }

  lemma {:induction false} ContentToTextFails(content: Content)
    ensures ContentToText(content).Ok? <==> ContentIsFine(content)
    ensures ContentToText(content).Err? ==> ContentFails(content, ContentToText(content).error)
  {
    if content.Parts? {
      PartsToTextFails(content.parts);
    }
  }

  predicate ItemIsFine(item: Item) {
    item.MessageItem? && ContentIsFine(item.content)
    && (IsWord(item.role, "user") || IsWord(item.role, "assistant") || IsWord(item.role, "system")
        || IsWord(item.role, "developer"))
  }

  lemma {:induction false} ItemToChatFails(item: Item)
    ensures ItemToChat(item).Ok? <==> ItemIsFine(item)
    ensures ItemToChat(item).Err? ==> ItemFails(item, ItemToChat(item).error)
  {
    hide Lower, IsWord, ContentToText, ContentIsFine, ContentFails;
    if item.MessageItem? {
      LowerIsWord(item.role, "user");
      LowerIsWord(item.role, "assistant");
      LowerIsWord(item.role, "system");
      LowerIsWord(item.role, "developer");
      ContentToTextFails(item.content);
      assert IsWord(item.role, "user") ==> ChatRole(item.role, "user");
      assert IsWord(item.role, "assistant") ==> ChatRole(item.role, "assistant");
      assert IsWord(item.role, "system") || IsWord(item.role, "developer") ==> ChatRole(item.role, "system");
    }
  }

  /** The items are translated if and only if each of them can be; otherwise the first that cannot says why. */
  lemma {:induction false} ItemsToChatFails(items: seq<Item>)
    ensures ItemsToChat(items).Ok? <==> forall i :: 0 <= i < |items| ==> ItemIsFine(items[i])
    ensures ItemsToChat(items).Err? ==>
              exists i :: 0 <= i < |items| && ItemFails(items[i], ItemsToChat(items).error)
                          && forall j :: 0 <= j < i ==> ItemIsFine(items[j])
  {
    hide ItemToChat, ItemIsFine, ItemFails;
    if items != [] {
      var n := |items| - 1;
      var front := items[..n];
      ItemsToChatFails(front);
      assert forall j :: 0 <= j < n ==> front[j] == items[j];
      ItemToChatFails(items[n]);
      if ItemsToChat(front).Err? {
        var e := ItemsToChat(front).error;
        var i :| 0 <= i < n && ItemFails(front[i], e) && forall j :: 0 <= j < i ==> ItemIsFine(front[j]);
        assert ItemFails(items[i], e);
      }
    }
  }

  /**
   A request is translated if and only if its instructions and all its items can be, and there is a message at all;
   the instructions come first here too.
   */
  lemma {:induction false} TranslatedIff(instructions: Option<Content>, input: Input)
    ensures var r := ToChat(instructions, input);
            && (r.Ok? <==>
                  (instructions.Some? ==> ContentIsFine(instructions.value))
                  && (input.Items? ==> forall i :: 0 <= i < |input.items| ==> ItemIsFine(input.items[i]))
                  && (instructions.Some? || input != Items([])))
            && (instructions.Some? && !ContentIsFine(instructions.value) ==>
                  r.Err? && ContentFails(instructions.value, r.error))
            && (instructions == None && input == Items([]) ==> r == Err(NoMessages))
            && ((instructions.Some? ==> ContentIsFine(instructions.value)) && input.Items?
                && !(forall i :: 0 <= i < |input.items| ==> ItemIsFine(input.items[i])) ==>
                  r == ItemsToChat(input.items))
  {
    hide ContentToText, ContentIsFine, ContentFails, ItemIsFine, ItemToChat;
    if instructions.Some? {
      ContentToTextFails(instructions.value);
    }
    if input.Items? {
      ItemsToChatFails(input.items);
      MessagesOfItems(input.items);
    }
  }

  lemma {:induction false} MessagesOfItems(items: seq<Item>)
    ensures ItemsToChat(items).Ok? ==> |ItemsToChat(items).value| == |items|
  {
    hide ItemToChat;
    if items != [] {
      MessagesOfItems(items[..|items| - 1]);
    }
  }
}
