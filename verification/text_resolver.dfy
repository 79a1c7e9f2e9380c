/** `CreateText`: the text of a block, built from the WORD and
    SELECTION_ELEMENT blocks its first CHILD relationship refers to. */
module TextResolver {
  import opened Wrappers
  import opened Seqs
  import opened Strings
  import opened Blocks

  /** The fragment one child contributes; `None` is the `null` the source
      yields for any other block type. A selection mark is "true" only when
      its status equals the block-type constant SELECTION_ELEMENT, so the
      statuses the service actually reports both give "false". */
  function Fragment(w: Block): (r: Option<string>)
    ensures w.blockType == SelectionElement ==> r == Some("true") || r == Some("false")
    ensures (w.blockType == SelectionElement
             && w.selectionStatus in {Some("SELECTED"), Some("NOT_SELECTED"), None}) ==> r == Some("false")
    ensures w.blockType != SelectionElement && w.blockType != Word ==> r == None
    ensures r.Some? && r.value != "true" && r.value != "false" ==> w.blockType == Word && r == w.text
    ensures w.blockType == Word ==> r == w.text
    ensures w.blockType == SelectionElement ==>
              (r == Some("true") <==> w.selectionStatus.Some?
                                      && EqualsIgnoreCase(w.selectionStatus.value, "SELECTION_ELEMENT"))
  {
    if w.blockType == SelectionElement then
      if w.selectionStatus.Some? && EqualsIgnoreCase(w.selectionStatus.value, SelectionElement.Name())
      then Some("true") else Some("false")
    else if w.blockType == Word then w.text
    else None
  }

  /** The status comparison ignores case: two selection marks whose statuses
      differ only in the case of ASCII letters give the same fragment. */
  lemma FragmentIgnoresStatusCase(a: Block, b: Block)
    requires a.blockType == SelectionElement && b.blockType == SelectionElement
    requires a.selectionStatus.Some? && b.selectionStatus.Some?
    requires EqualsIgnoreCase(a.selectionStatus.value, b.selectionStatus.value)
    ensures Fragment(a) == Fragment(b)
  {
    EqualsIgnoreCaseTransitive(a.selectionStatus.value, b.selectionStatus.value, "SELECTION_ELEMENT");
    EqualsIgnoreCaseTransitive(b.selectionStatus.value, a.selectionStatus.value, "SELECTION_ELEMENT");
  }

  /** The blocks `CreateText` reads: every block of the collection whose id
      occurs in the first CHILD relationship, in collection order. */
  function Children(b: Block, blocks: seq<Block>): seq<Block> {
    Resolve(blocks, RelatedIds(b, Child))
  }

  /** The strings `string.Join` receives, a null fragment written as "". */
  function Fragments(cs: seq<Block>): (r: seq<string>)
    ensures |r| == |cs|
    ensures forall i :: 0 <= i < |cs| ==> r[i] == Fragment(cs[i]).GetOr("")
  {
    seq(|cs|, i requires 0 <= i < |cs| => Fragment(cs[i]).GetOr(""))
  }

  /** `string.Join(" ", words)` over the children's fragments. The result is
      empty exactly when at most one child matched and its fragment is empty;
      otherwise it holds one separator per pair of neighbouring children. */
  function CreateText(b: Block, blocks: seq<Block>): (r: string)
    ensures |Children(b, blocks)| == 0 ==> r == ""
    ensures |Children(b, blocks)| > 0 ==>
              |r| == TotalLength(Fragments(Children(b, blocks))) + |Children(b, blocks)| - 1
    ensures r == "" <==> |Children(b, blocks)| <= 1
                         && forall i :: 0 <= i < |Children(b, blocks)| ==>
                              Fragment(Children(b, blocks)[i]).GetOr("") == ""
  {
    Join(' ', Fragments(Children(b, blocks)))
  }

  /** A block with no CHILD relationship has empty text. */
  lemma CreateTextWithoutChildRelationship(b: Block, blocks: seq<Block>)
    requires forall i :: 0 <= i < |b.relationships| ==> b.relationships[i].relType != Child
    ensures CreateText(b, blocks) == ""
  {
  }

  /** Ids that name no block of the collection are skipped silently: when
      none matches, the text is empty. */
  lemma CreateTextAllDangling(b: Block, blocks: seq<Block>)
    requires RelatedIds(b, Child).Some?
    requires forall i :: 0 <= i < |blocks| ==> blocks[i].id !in RelatedIds(b, Child).value
    ensures CreateText(b, blocks) == ""
  {
    assert Children(b, blocks) == [] by {
      FilterNone(blocks, x => Listed(RelatedIds(b, Child), x));
    }
  }

  /** Splitting the text at spaces recovers one fragment per matched block,
      in collection order, provided no fragment holds a space itself. */
  lemma CreateTextSplits(b: Block, blocks: seq<Block>)
    requires |Children(b, blocks)| > 0
    requires forall i :: 0 <= i < |Children(b, blocks)| ==> ' ' !in Fragment(Children(b, blocks)[i]).GetOr("")
    ensures Split(CreateText(b, blocks), ' ') == Fragments(Children(b, blocks))
    ensures Occurrences(CreateText(b, blocks), ' ') == |Children(b, blocks)| - 1
  {
    SplitJoin(Fragments(Children(b, blocks)), ' ');
    JoinSeparatorCount(Fragments(Children(b, blocks)), ' ');
  }

  /** The text depends on which of the collection's ids the CHILD
      relationship lists, not on their order, repetition or dangling ids:
      two blocks whose CHILD lists agree on the collection's ids get the
      same text. */
  lemma CreateTextIgnoresIdListOrder(b1: Block, b2: Block, blocks: seq<Block>)
    requires RelatedIds(b1, Child).Some? && RelatedIds(b2, Child).Some?
    requires forall i :: 0 <= i < |blocks| ==>
               (blocks[i].id in RelatedIds(b1, Child).value <==> blocks[i].id in RelatedIds(b2, Child).value)
    ensures CreateText(b1, blocks) == CreateText(b2, blocks)
  {
    ResolveDependsOnlyOnIdSet(blocks, RelatedIds(b1, Child).value, RelatedIds(b2, Child).value);
  }
}
