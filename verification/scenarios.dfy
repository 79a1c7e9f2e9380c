/** Concrete block lists and what the projections make of them. */
module Scenarios {
  import opened Wrappers
  import opened Seqs
  import opened Strings
  import opened Blocks
  import opened TextResolver
  import opened Document

  function WordBlock(id: string, text: string): Block {
    Block(id, Word, Some(text), [], None, 0, 0, [], None)
  }

  const K1 := Block("k1", KeyValueSet, None, ["KEY"], None, 0, 0,
                    [Relationship(Child, ["w1"]), Relationship(Value, ["v1"])], None)
  const W1 := WordBlock("w1", "Name")
  const V1 := Block("v1", KeyValueSet, None, ["VALUE"], None, 0, 0, [Relationship(Child, ["w2"])], None)
  const W2 := WordBlock("w2", "Alice")

  lemma ResolveCons(b: Block, rest: seq<Block>, ids: Option<seq<string>>)
    ensures Resolve([b] + rest, ids) == (if Listed(ids, b) then [b] else []) + Resolve(rest, ids)
  {
    assert ([b] + rest)[1..] == rest;
  }

  lemma FirstListedCons(b: Block, rest: seq<Block>, ids: Option<seq<string>>)
    ensures FirstListed([b] + rest, ids) == if Listed(ids, b) then Some(b) else FirstListed(rest, ids)
  {
    FirstWhereCons(b, rest, x => Listed(ids, x));
  }

  const FormBlocks := [K1, W1, V1, W2]

  lemma FormExampleKeys()
    ensures KeyBlocks(FormBlocks) == [K1]
  {
    assert IsKeyBlock(K1) && !IsKeyBlock(W1) && !IsKeyBlock(V1) && !IsKeyBlock(W2);
    FilterCons(K1, [W1, V1, W2], IsKeyBlock);
    FilterCons(W1, [V1, W2], IsKeyBlock);
    FilterCons(V1, [W2], IsKeyBlock);
    FilterCons(W2, [], IsKeyBlock);
  }

  lemma FormExampleKeyChildren()
    ensures Children(K1, FormBlocks) == [W1]
  {
    var ids := Some(["w1"]);
    assert RelatedIds(K1, Child) == ids;
    assert !Listed(ids, K1) && Listed(ids, W1) && !Listed(ids, V1) && !Listed(ids, W2);
    ResolveCons(K1, [W1, V1, W2], ids);
    ResolveCons(W1, [V1, W2], ids);
    ResolveCons(V1, [W2], ids);
    ResolveCons(W2, [], ids);
  }

  lemma FormExampleValueChildren()
    ensures Children(V1, FormBlocks) == [W2]
  {
    var ids := Some(["w2"]);
    assert RelatedIds(V1, Child) == ids;
    assert !Listed(ids, K1) && !Listed(ids, W1) && !Listed(ids, V1) && Listed(ids, W2);
    ResolveCons(K1, [W1, V1, W2], ids);
    ResolveCons(W1, [V1, W2], ids);
    ResolveCons(V1, [W2], ids);
    ResolveCons(W2, [], ids);
  }

  lemma FormExampleKeyText()
    ensures CreateText(K1, FormBlocks) == "Name"
  {
    FormExampleKeyChildren();
    assert Fragments([W1]) == ["Name"];
  }

  lemma FormExampleValueText()
    ensures CreateText(V1, FormBlocks) == "Alice"
  {
    FormExampleValueChildren();
    assert Fragments([W2]) == ["Alice"];
  }

  lemma FormExampleValue()
    ensures ValueText(K1, FormBlocks) == Some(CreateText(V1, FormBlocks))
  {
    var ids := Some(["v1"]);
    assert RelatedIds(K1, Value) == ids by {
      assert K1.relationships[1..] == [Relationship(Value, ["v1"])];
    }
    assert !Listed(ids, K1) && !Listed(ids, W1) && Listed(ids, V1);
    FirstListedCons(K1, [W1, V1, W2], ids);
    FirstListedCons(W1, [V1, W2], ids);
    FirstListedCons(V1, [W2], ids);
  }

  /** A key "Name" whose VALUE block holds the word "Alice". */
  lemma NameAliceForm()
    ensures Form(FormBlocks) == [FormEntry("Name", Some("Alice"))]
  {
    FormExampleKeys();
    FormExampleKeyText();
    FormExampleValueText();
    FormExampleValue();
  }

  const Box := Block("b", KeyValueSet, None, ["KEY"], None, 0, 0, [Relationship(Child, ["s", "w"])], None)
  const Ticked := Block("s", SelectionElement, None, [], Some("SELECTED"), 0, 0, [], None)
  const Married := WordBlock("w", "Married")
  const BoxBlocks := [Box, Ticked, Married]

  lemma BoxExampleChildren()
    ensures Children(Box, BoxBlocks) == [Ticked, Married]
  {
    var ids := Some(["s", "w"]);
    assert RelatedIds(Box, Child) == ids;
    assert !Listed(ids, Box) && Listed(ids, Ticked) && Listed(ids, Married);
    ResolveCons(Box, [Ticked, Married], ids);
    ResolveCons(Ticked, [Married], ids);
    ResolveCons(Married, [], ids);
  }

  lemma BoxExampleFragments()
    ensures Fragments([Ticked, Married]) == ["false", "Married"]
  {
    assert Fragment(Ticked) == Some("false");
    assert Fragment(Married) == Some("Married");
  }

  /** A ticked box still reads "false": its status is SELECTED, not the
      block-type name the source compares it with. */
  lemma SelectedBoxReadsFalse()
    ensures CreateText(Box, BoxBlocks) == "false Married"
  {
    BoxExampleChildren();
    BoxExampleFragments();
    assert Join(' ', ["false", "Married"]) == "false" + [' '] + Join(' ', ["Married"]);
  }
}
