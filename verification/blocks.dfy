/** The Textract AnalyzeDocument block graph: blocks that refer to one another
    by id through typed relationships, and the id dictionary the document
    endpoint builds from them. */
module Blocks {
  import opened Wrappers
  import opened Seqs

  /** The block types the SDK names. `Other` stands for any further type
      (the layout types, for one); no projection selects it. Its name is
      none of the listed types' names, in any case: the SDK compares type
      constants ignoring case, so "word" is `Word`, never `Other("word")`. */
  datatype BlockType =
    | KeyValueSet | Page | Line | Word | Table | Cell | SelectionElement
    | MergedCell | Title | Query | QueryResult | Signature | TableTitle | TableFooter
    | Other(name: string)
  {
    /** The constant's wire value, as the SDK stores it. */
    function Name(): string {
      match this
      case KeyValueSet => "KEY_VALUE_SET"
      case Page => "PAGE"
      case Line => "LINE"
      case Word => "WORD"
      case Table => "TABLE"
      case Cell => "CELL"
      case SelectionElement => "SELECTION_ELEMENT"
      case MergedCell => "MERGED_CELL"
      case Title => "TITLE"
      case Query => "QUERY"
      case QueryResult => "QUERY_RESULT"
      case Signature => "SIGNATURE"
      case TableTitle => "TABLE_TITLE"
      case TableFooter => "TABLE_FOOTER"
      case Other(n) => n
    }
  }

  datatype RelationshipType =
    | Value | Child | ComplexFeatures | MergedCellRel | TitleRel | Answer
    | TableRel | TableTitleRel | TableFooterRel

  /** A typed edge from a block to the blocks whose ids are listed. */
  datatype Relationship = Relationship(relType: RelationshipType, ids: seq<string>)

  /** The `Query` object of a QUERY block; its text may be null. */
  datatype QueryInfo = QueryInfo(text: Option<string>)

  /** One block. `rowIndex`/`columnIndex` are the SDK's integer properties,
      0 when the service leaves them unset; `selectionStatus` holds the
      status's wire value. */
  datatype Block = Block(
    id: string,
    blockType: BlockType,
    text: Option<string>,
    entityTypes: seq<string>,
    selectionStatus: Option<string>,
    rowIndex: int,
    columnIndex: int,
    relationships: seq<Relationship>,
    query: Option<QueryInfo>)

  /** `b.Relationships.Where(r => r.Type == t).FirstOrDefault()?.Ids`: the id
      list of the block's first relationship of type `t`, `None` when it has
      none. Later relationships of the same type are never consulted. */
  function RelatedIds(b: Block, t: RelationshipType): (r: Option<seq<string>>)
    ensures r.None? <==> forall i :: 0 <= i < |b.relationships| ==> b.relationships[i].relType != t
    ensures r.Some? ==> exists i :: 0 <= i < |b.relationships|
                                   && b.relationships[i] == Relationship(t, r.value)
                                   && forall j :: 0 <= j < i ==> b.relationships[j].relType != t
  {
    match FirstWhere(b.relationships, (rel: Relationship) => rel.relType == t)
    case None => None
    case Some(rel) => Some(rel.ids)
  }

  /** Does `b`'s id occur in the (possibly null) id list `ids`? */
  predicate Listed(ids: Option<seq<string>>, b: Block) {
    ids.Some? && b.id in ids.value
  }

  /** `blocks.Where(b => ids != null && ids.Contains(b.Id))`: the blocks the
      id list refers to, found by scanning the collection. */
  function Resolve(blocks: seq<Block>, ids: Option<seq<string>>): (r: seq<Block>)
    ensures forall i :: 0 <= i < |r| ==> r[i] in blocks && Listed(ids, r[i])
  {
    Filter(blocks, b => Listed(ids, b))
  }

  /** `blocks.Where(b => ids != null && ids.Contains(b.Id)).FirstOrDefault()`:
      the first block of the collection the id list refers to. */
  function FirstListed(blocks: seq<Block>, ids: Option<seq<string>>): (r: Option<Block>)
    ensures r.None? <==> forall i :: 0 <= i < |blocks| ==> !Listed(ids, blocks[i])
    ensures r.Some? ==> exists i :: 0 <= i < |blocks| && blocks[i] == r.value && Listed(ids, blocks[i])
                                   && forall j :: 0 <= j < i ==> !Listed(ids, blocks[j])
  {
    FirstWhere(blocks, b => Listed(ids, b))
  }

  /** The first-listed lookup of the answer and the form value is the head
      of the same collection scan `CreateText` uses for its children. */
  lemma FirstListedIsHeadOfResolve(blocks: seq<Block>, ids: Option<seq<string>>)
    ensures FirstListed(blocks, ids) == Head(Resolve(blocks, ids))
  {
    FirstWhereIsHeadOfFilter(blocks, b => Listed(ids, b));
  }

  /** Every block the id list names is found, as often as it occurs in the
      collection, however often or wherever its id occurs in the list. */
  lemma ResolveFindsAll(blocks: seq<Block>, ids: Option<seq<string>>, x: Block)
    ensures x in Resolve(blocks, ids) <==> x in blocks && Listed(ids, x)
    ensures multiset(Resolve(blocks, ids))[x] == if Listed(ids, x) then multiset(blocks)[x] else 0
  {
    FilterMembership(blocks, b => Listed(ids, b), x);
    FilterMultiplicity(blocks, b => Listed(ids, b), x);
  }

  /** Dangling ids, repeated ids and the order of the id list do not matter:
      two lists that agree on the ids of the collection's blocks find the same blocks. */
  lemma ResolveDependsOnlyOnIdSet(blocks: seq<Block>, ids1: seq<string>, ids2: seq<string>)
    requires forall i :: 0 <= i < |blocks| ==> (blocks[i].id in ids1 <==> blocks[i].id in ids2)
    ensures Resolve(blocks, Some(ids1)) == Resolve(blocks, Some(ids2))
  {
    FilterCongruent(blocks, b => Listed(Some(ids1), b), b => Listed(Some(ids2), b));
  }

  /** The output follows the order of the block collection. */
  lemma ResolveFollowsCollection(a: seq<Block>, b: seq<Block>, ids: Option<seq<string>>)
    ensures Resolve(a + b, ids) == Resolve(a, ids) + Resolve(b, ids)
  {
    FilterConcat(a, b, x => Listed(ids, x));
  }

  /** The ids of a block collection. */
  function IdSet(blocks: seq<Block>): set<string> {
    set b | b in blocks :: b.id
  }

  /** No two blocks share an id. */
  predicate DistinctIds(blocks: seq<Block>) {
    forall i, j :: 0 <= i < j < |blocks| ==> blocks[i].id != blocks[j].id
  }

  /** Why the document projection throws: `ToDictionary` meets a repeated
      key, or the first QUERY block has no query object. */
  datatype DocumentError =
    | DuplicateId(id: string)
    | MissingQuery(blockId: string)

  /** Appending a block adds exactly its id. */
  lemma IdSetSnoc(s: seq<Block>, b: Block)
    ensures IdSet(s + [b]) == IdSet(s) + {b.id}
  {
    forall x | x in IdSet(s + [b])
      ensures x in IdSet(s) + {b.id}
    {
      var c :| c in s + [b] && c.id == x;
      if c != b {
        assert c in s;
      }
    }
  }

  /** Appending a block with a fresh id keeps the ids distinct. */
  lemma DistinctSnoc(s: seq<Block>, b: Block)
    requires DistinctIds(s) && b.id !in IdSet(s)
    ensures DistinctIds(s + [b])
  {
    forall i | 0 <= i < |s|
      ensures s[i].id != b.id
    {
      assert s[i] in s;
    }
  }

  /** An id that occurs before position `j` makes the whole collection non-distinct. */
  lemma RepeatBreaksDistinct(blocks: seq<Block>, j: nat)
    requires j < |blocks| && blocks[j].id in IdSet(blocks[..j])
    ensures !DistinctIds(blocks)
  {
    var b :| b in blocks[..j] && b.id == blocks[j].id;
    var i :| 0 <= i < j && blocks[..j][i] == b;
    assert blocks[i].id == blocks[j].id;
  }

  /** The position at which `ToDictionary` throws: the first block whose id
      already occurred before it, scanning from `from` on. */
  function FirstDuplicateFrom(blocks: seq<Block>, from: nat): (r: Option<nat>)
    requires from <= |blocks|
    requires DistinctIds(blocks[..from])
    ensures r.None? <==> DistinctIds(blocks)
    ensures r.Some? ==> from <= r.value < |blocks| && DistinctIds(blocks[..r.value])
                        && blocks[r.value].id in IdSet(blocks[..r.value])
    decreases |blocks| - from
  {
    if from == |blocks| then
      assert blocks[..from] == blocks;
      None
    else if blocks[from].id in IdSet(blocks[..from]) then
      RepeatBreaksDistinct(blocks, from);
      Some(from)
    else
      assert blocks[..from + 1] == blocks[..from] + [blocks[from]];
      DistinctSnoc(blocks[..from], blocks[from]);
      var r := FirstDuplicateFrom(blocks, from + 1);
      if r.Some? then
        RepeatBreaksDistinct(blocks, r.value);
        r
      else
        r
  }

  /** The position of the first repeated id, `None` when ids are distinct. */
  function FirstDuplicate(blocks: seq<Block>): (r: Option<nat>)
    ensures r.None? <==> DistinctIds(blocks)
    ensures r.Some? ==> r.value < |blocks| && DistinctIds(blocks[..r.value])
                        && blocks[r.value].id in IdSet(blocks[..r.value])
  {
    FirstDuplicateFrom(blocks, 0)
  }

  /** The scan stops at the first repeat: a position `j` whose id already
      occurred, with distinct ids before it, is the one `FirstDuplicate` finds. */
  lemma {:induction false} FirstDuplicateAt(blocks: seq<Block>, from: nat, j: nat)
    requires from <= j < |blocks|
    requires DistinctIds(blocks[..j]) && blocks[j].id in IdSet(blocks[..j])
    ensures DistinctIds(blocks[..from])
    ensures FirstDuplicateFrom(blocks, from) == Some(j)
    decreases j - from
  {
    var s := blocks[..j];
    assert blocks[..from] == s[..from];
    if from < j {
      if blocks[from].id in IdSet(blocks[..from]) {
        RepeatBreaksDistinct(s, from);
        assert false;
      }
      FirstDuplicateAt(blocks, from + 1, j);
    }
  }

  /** `Blocks.ToDictionary(b => b.Id)`: adds the blocks one by one and throws
      on the first id that is already a key. */
  method ToDictionary(blocks: seq<Block>) returns (r: Result<map<string, Block>, DocumentError>)
    ensures r.Success? <==> DistinctIds(blocks)
    ensures r.Success? ==> r.value.Keys == IdSet(blocks)
                           && forall i :: 0 <= i < |blocks| ==> r.value[blocks[i].id] == blocks[i]
    ensures r.Failure? ==> exists j :: 0 <= j < |blocks| && r.error == DuplicateId(blocks[j].id)
                                       && DistinctIds(blocks[..j]) && blocks[j].id in IdSet(blocks[..j])
    ensures r.Failure? ==> FirstDuplicate(blocks).Some?
                           && r.error == DuplicateId(blocks[FirstDuplicate(blocks).value].id)
  {
    var m: map<string, Block> := map[];
    for j := 0 to |blocks|
      invariant DistinctIds(blocks[..j])
      invariant m.Keys == IdSet(blocks[..j])
      invariant forall i :: 0 <= i < j ==> blocks[i].id in m && m[blocks[i].id] == blocks[i]
    {
      assert blocks[..j + 1] == blocks[..j] + [blocks[j]];
      if blocks[j].id in m {
        assert blocks[j].id in IdSet(blocks[..j]);
        RepeatBreaksDistinct(blocks, j);
        FirstDuplicateAt(blocks, 0, j);
        assert FirstDuplicate(blocks) == Some(j);
        return Failure(DuplicateId(blocks[j].id));
      }
      IdSetSnoc(blocks[..j], blocks[j]);
      DistinctSnoc(blocks[..j], blocks[j]);
      m := m[blocks[j].id := blocks[j]];
    }
    assert blocks[..|blocks|] == blocks;
    return Success(m);
  }
}
