/** Text leaves under distinct keys, and replacing their texts through a dictionary. */
module KeyedLeaves {
  import opened WriteBack

  datatype Leaf<K> = Leaf(key: K, text: string)

  function Texts<K>(leaves: seq<Leaf<K>>): (r: seq<string>)
    ensures |r| == |leaves|
  {
    seq(|leaves|, i requires 0 <= i < |leaves| => leaves[i].text)
  }

  ghost predicate DistinctKeys<K>(leaves: seq<Leaf<K>>) {
    forall i, j :: 0 <= i < j < |leaves| ==> leaves[i].key != leaves[j].key
  }

  /** The dictionary built from the leaves and their replacements, pair by pair. */
  function ByKey<K(==)>(leaves: seq<Leaf<K>>, replacements: seq<string>): map<K, string>
    requires |leaves| == |replacements|
  {
    if leaves == [] then map[]
    else
      var n := |leaves| - 1;
      ByKey(leaves[..n], replacements[..n])[leaves[n].key := replacements[n]]
  }

  /** The leaves with the texts that the dictionary has for them. */
  function Relabel<K(==)>(leaves: seq<Leaf<K>>, texts: map<K, string>): (r: seq<Leaf<K>>)
    ensures |r| == |leaves|
  {
    seq(|leaves|, i requires 0 <= i < |leaves| =>
      if leaves[i].key in texts then Leaf(leaves[i].key, texts[leaves[i].key]) else leaves[i])
  }

  lemma {:induction false} LookupByKey<K>(leaves: seq<Leaf<K>>, replacements: seq<string>)
    requires |leaves| == |replacements| && DistinctKeys(leaves)
    ensures forall i :: 0 <= i < |leaves| ==>
              leaves[i].key in ByKey(leaves, replacements)
              && ByKey(leaves, replacements)[leaves[i].key] == replacements[i]
    ensures forall k :: k in ByKey(leaves, replacements) ==> exists i :: 0 <= i < |leaves| && leaves[i].key == k
  {
    if leaves != [] {
      var n := |leaves| - 1;
      LookupByKey(leaves[..n], replacements[..n]);
      forall k | k in ByKey(leaves, replacements) ensures exists i :: 0 <= i < |leaves| && leaves[i].key == k {
        if k == leaves[n].key {
        } else {
          var i :| 0 <= i < n && leaves[..n][i].key == k;
          assert leaves[i].key == k;
        }
      }
    }
  }

  /** Looked up under distinct keys, the replacements come back in order. */
  lemma RelabelledTexts<K>(leaves: seq<Leaf<K>>, replacements: seq<string>)
    requires |leaves| == |replacements| && DistinctKeys(leaves)
    ensures Texts(Relabel(leaves, ByKey(leaves, replacements))) == replacements
  {
    LookupByKey(leaves, replacements);
  }

  lemma RelabelConcat<K>(a: seq<Leaf<K>>, b: seq<Leaf<K>>, texts: map<K, string>)
    ensures Relabel(a + b, texts) == Relabel(a, texts) + Relabel(b, texts)
  {
  }
}
