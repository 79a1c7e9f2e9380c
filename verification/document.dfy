/** The document endpoint's projections of an AnalyzeDocument block list:
    the first query's answer, the form's key/value pairs and the tables'
    row grids, behind the duplicate-id check of the id dictionary. */
module Document {
  import opened Wrappers
  import opened Seqs
  import opened Blocks
  import opened TextResolver
  import opened CellOrder

  datatype QueryAnswer = QueryAnswer(question: Option<string>, answer: Option<string>)
  datatype FormEntry = FormEntry(key: string, value: Option<string>)
  datatype TableRows = TableRows(rows: seq<seq<string>>)
  datatype DocumentResult = DocumentResult(queries: Option<QueryAnswer>, form: seq<FormEntry>, tables: seq<TableRows>)

  // ---------------------------------------------------------------- Queries

  predicate IsQueryBlock(b: Block) {
    b.blockType == Query
  }

  /** The answer to query block `q`: the text (not the `CreateText`) of the
      first block of the collection listed by `q`'s first ANSWER relationship. */
  function AnswerText(q: Block, blocks: seq<Block>): (r: Option<string>)
    ensures (forall i :: 0 <= i < |blocks| ==> !Listed(RelatedIds(q, Answer), blocks[i])) ==> r.None?
    ensures forall i :: 0 <= i < |blocks| && Listed(RelatedIds(q, Answer), blocks[i])
                        && (forall j :: 0 <= j < i ==> !Listed(RelatedIds(q, Answer), blocks[j])) ==>
                          r == blocks[i].text
  {
    match FirstListed(blocks, RelatedIds(q, Answer))
    case None => None
    case Some(b) => b.text
  }

  /** A query block without an ANSWER relationship has no answer. */
  lemma AnswerWithoutRelationship(q: Block, blocks: seq<Block>)
    requires forall i :: 0 <= i < |q.relationships| ==> q.relationships[i].relType != Answer
    ensures AnswerText(q, blocks).None?
  {
  }

  /** `Queries`: only the first QUERY block of the collection is projected;
      none gives `null`, and a first QUERY block without its `Query` object
      dereferences null. */
  function FirstQuery(blocks: seq<Block>): (r: Result<Option<QueryAnswer>, DocumentError>)
    ensures r == Success(None) <==> forall i :: 0 <= i < |blocks| ==> !IsQueryBlock(blocks[i])
    ensures r.Failure? <==> exists i :: 0 <= i < |blocks| && IsQueryBlock(blocks[i]) && blocks[i].query.None?
                                        && forall j :: 0 <= j < i ==> !IsQueryBlock(blocks[j])
    ensures r.Failure? ==> exists i :: 0 <= i < |blocks| && IsQueryBlock(blocks[i]) && blocks[i].query.None?
                                       && (forall j :: 0 <= j < i ==> !IsQueryBlock(blocks[j]))
                                       && r.error == MissingQuery(blocks[i].id)
    ensures r.Success? && r.value.Some? ==>
              exists i :: 0 <= i < |blocks| && IsQueryBlock(blocks[i])
                          && (forall j :: 0 <= j < i ==> !IsQueryBlock(blocks[j]))
                          && blocks[i].query.Some?
                          && r.value.value == QueryAnswer(blocks[i].query.value.text, AnswerText(blocks[i], blocks))
  {
    match FirstWhere(blocks, IsQueryBlock)
    case None => Success(None)
    case Some(q) =>
      if q.query.None? then Failure(MissingQuery(q.id))
      else Success(Some(QueryAnswer(q.query.value.text, AnswerText(q, blocks))))
  }

  // ------------------------------------------------------------------- Form

  /** A KEY_VALUE_SET block in the key role. */
  predicate IsKeyBlock(b: Block) {
    b.blockType == KeyValueSet && "KEY" in b.entityTypes
  }

  function KeyBlocks(blocks: seq<Block>): seq<Block> {
    Filter(blocks, IsKeyBlock)
  }

  /** The value of key block `k`: `CreateText` of the first block of the
      collection listed by `k`'s first VALUE relationship, `null` when there
      is no such relationship or none of its ids names a block. */
  function ValueText(k: Block, blocks: seq<Block>): (r: Option<string>)
    ensures r.None? <==> forall i :: 0 <= i < |blocks| ==> !Listed(RelatedIds(k, Value), blocks[i])
    ensures r.Some? ==> exists i :: 0 <= i < |blocks| && Listed(RelatedIds(k, Value), blocks[i])
                                   && r.value == CreateText(blocks[i], blocks)
                                   && forall j :: 0 <= j < i ==> !Listed(RelatedIds(k, Value), blocks[j])
  {
    match FirstListed(blocks, RelatedIds(k, Value))
    case None => None
    case Some(v) => Some(CreateText(v, blocks))
  }

  /** `Form`: one entry per key block, in collection order. */
  function Form(blocks: seq<Block>): (r: seq<FormEntry>)
    ensures |r| == |KeyBlocks(blocks)|
    ensures forall i :: 0 <= i < |r| ==>
              r[i] == FormEntry(CreateText(KeyBlocks(blocks)[i], blocks), ValueText(KeyBlocks(blocks)[i], blocks))
  {
    var keys := KeyBlocks(blocks);
    seq(|keys|, i requires 0 <= i < |keys| => FormEntry(CreateText(keys[i], blocks), ValueText(keys[i], blocks)))
  }

  /** The entries' key blocks are exactly the key blocks of the collection,
      each as often as it occurs there, and in collection order. */
  lemma FormKeyBlocks(a: seq<Block>, b: seq<Block>, x: Block)
    ensures x in KeyBlocks(a + b) <==> x in a + b && IsKeyBlock(x)
    ensures multiset(KeyBlocks(a + b))[x] == if IsKeyBlock(x) then multiset(a + b)[x] else 0
    ensures KeyBlocks(a + b) == KeyBlocks(a) + KeyBlocks(b)
  {
    FilterMembership(a + b, IsKeyBlock, x);
    FilterMultiplicity(a + b, IsKeyBlock, x);
    FilterConcat(a, b, IsKeyBlock);
  }

  // ----------------------------------------------------------------- Tables

  predicate IsTableBlock(b: Block) {
    b.blockType == Table
  }

  function TableBlocks(blocks: seq<Block>): seq<Block> {
    Filter(blocks, IsTableBlock)
  }

  /** The cells of table `t`, sorted by row then column and grouped by row. */
  function CellGrid(t: Block, blocks: seq<Block>): seq<seq<Block>> {
    GroupByRow(SortCells(Children(t, blocks)))
  }

  function RenderRow(row: seq<Block>, blocks: seq<Block>): (r: seq<string>)
    ensures |r| == |row|
    ensures forall j :: 0 <= j < |row| ==> r[j] == CreateText(row[j], blocks)
  {
    seq(|row|, j requires 0 <= j < |row| => CreateText(row[j], blocks))
  }

  /** The rows of table `t`, each cell rendered by `CreateText`. */
  function TableOf(t: Block, blocks: seq<Block>): (r: TableRows)
    ensures |r.rows| == |CellGrid(t, blocks)|
    ensures forall i :: 0 <= i < |r.rows| ==> r.rows[i] == RenderRow(CellGrid(t, blocks)[i], blocks)
  {
    var g := CellGrid(t, blocks);
    TableRows(seq(|g|, i requires 0 <= i < |g| => RenderRow(g[i], blocks)))
  }

  /** `Tables`: one entry per TABLE block, in collection order. */
  function Tables(blocks: seq<Block>): (r: seq<TableRows>)
    ensures |r| == |TableBlocks(blocks)|
    ensures forall i :: 0 <= i < |r| ==> r[i] == TableOf(TableBlocks(blocks)[i], blocks)
  {
    var ts := TableBlocks(blocks);
    seq(|ts|, i requires 0 <= i < |ts| => TableOf(ts[i], blocks))
  }

  /** The shape of a table's grid: no empty rows; each row's cells share a
      row index and ascend by column; row indices strictly ascend; read row
      by row the grid is the stable sort of the table's children, so it
      holds every child exactly as often as the collection does, and cells
      at the same position keep collection order. */
  lemma CellGridShape(t: Block, blocks: seq<Block>)
    ensures forall i :: 0 <= i < |CellGrid(t, blocks)| ==> |CellGrid(t, blocks)[i]| > 0
    ensures forall i :: 0 <= i < |CellGrid(t, blocks)| ==>
              AllOnRow(CellGrid(t, blocks)[i], CellGrid(t, blocks)[i][0].rowIndex)
    ensures forall i :: 0 <= i < |CellGrid(t, blocks)| ==> SortedByPosition(CellGrid(t, blocks)[i])
    ensures forall i, j :: 0 <= i < j < |CellGrid(t, blocks)| ==>
              CellGrid(t, blocks)[i][0].rowIndex < CellGrid(t, blocks)[j][0].rowIndex
    ensures Flatten(CellGrid(t, blocks)) == SortCells(Children(t, blocks))
    ensures multiset(Flatten(CellGrid(t, blocks))) == multiset(Children(t, blocks))
    ensures forall row, col :: AtPosition(Flatten(CellGrid(t, blocks)), row, col) ==
                               AtPosition(Children(t, blocks), row, col)
  {
    var s := SortCells(Children(t, blocks));
    GroupsOnOneRow(s);
    GroupByRowKeepsSorted(s);
    GroupByRowOfSortedFlattens(s);
    GroupByRowOfSortedAscends(s);
    forall row, col
      ensures AtPosition(s, row, col) == AtPosition(Children(t, blocks), row, col)
    {
      SortCellsStable(Children(t, blocks), row, col);
    }
  }

  // ------------------------------------------------------------- Endpoint

  /** `GetDocumentResult` after the service call: the id dictionary is built
      first and throws on a repeated id although nothing reads it; then the
      first query is projected eagerly; form and tables cannot fail. */
  function GetDocumentResult(blocks: seq<Block>): (r: Result<DocumentResult, DocumentError>)
    ensures !DistinctIds(blocks) ==>
              r.Failure? && exists j :: 0 <= j < |blocks| && r.error == DuplicateId(blocks[j].id)
                                        && DistinctIds(blocks[..j]) && blocks[j].id in IdSet(blocks[..j])
    ensures DistinctIds(blocks) ==> (r.Success? <==> FirstQuery(blocks).Success?)
    ensures DistinctIds(blocks) && r.Failure? ==> FirstQuery(blocks).Failure? && r.error == FirstQuery(blocks).error
    ensures r.Success? ==> Success(r.value.queries) == FirstQuery(blocks)
                           && r.value.form == Form(blocks) && r.value.tables == Tables(blocks)
  {
    match FirstDuplicate(blocks)
    case Some(j) => Failure(DuplicateId(blocks[j].id))
    case None =>
      var q :- FirstQuery(blocks);
      Success(DocumentResult(q, Form(blocks), Tables(blocks)))
  }
}
