/** The JSON query builder of json.go: `JSONQuery(column)` starts an
    expression, the setters `Extract`, `HasKey` and `Equals` record what the
    expression tests and return the same expression, and `jsonQueryJoin`
    writes a key path in the `$.a.b.c` syntax of MySQL and SQLite. */
module JsonQuery {
  import opened Common

  /** The keys separated by dots. */
  function DotJoin(keys: seq<string>): string
    requires |keys| > 0
  {
    if |keys| == 1 then keys[0] else DotJoin(keys[..|keys| - 1]) + "." + keys[|keys| - 1]
  }

  /** The total length of the keys. */
  function SumLengths(keys: seq<string>): nat {
    if keys == [] then 0 else SumLengths(keys[..|keys| - 1]) + |keys[|keys| - 1]|
  }

  /** `n` dots between `n + 1` keys: the path is exactly as long as the
      capacity `jsonQueryJoin` reserves, less the two characters of `$.`. */
  lemma {:induction false} DotJoinLength(keys: seq<string>)
    requires |keys| > 0
    ensures |DotJoin(keys)| == |keys| - 1 + SumLengths(keys)
    decreases |keys|
  {
    if |keys| > 1 {
      DotJoinLength(keys[..|keys| - 1]);
    } else {
      assert keys[..0] == [];
    }
  }

  /** `jsonQueryJoin`, which its callers only reach with at least one key. */
  method JsonQueryJoin(keys: seq<string>) returns (r: string)
    requires |keys| > 0
    ensures r == "$." + DotJoin(keys)
    ensures |r| == 2 + (|keys| - 1) + SumLengths(keys)
  {
    DotJoinLength(keys);
    if |keys| == 1 {
      return "$." + keys[0];
    }
    var n := |"$."|;
    n := n + |keys| - 1;
    for i := 0 to |keys|
      invariant n == 2 + (|keys| - 1) + SumLengths(keys[..i])
    {
      assert keys[..i + 1][..i] == keys[..i];
      n := n + |keys[i]|;
    }
    assert keys[..|keys|] == keys;
    var builder := "$.";
    builder := builder + keys[0];
    for i := 1 to |keys|
      invariant builder == "$." + DotJoin(keys[..i])
    {
      assert keys[..i + 1][..i] == keys[..i];
      builder := builder + ".";
      builder := builder + keys[i];
    }
    assert |builder| == n;
    return builder;
  }

  /** `JSONQueryExpression`. */
  class JSONQueryExpression {
    var column: string
    var keys: seq<string>
    var hasKeys: bool
    var equals: bool
    var equalsValue: Any
    var extract: bool
    var path: string

    /** `JSONQuery(column)`: only the column is set. */
    constructor JSONQuery(column: string)
      ensures this.column == column && keys == [] && path == "" && equalsValue == Nil
      ensures !hasKeys && !equals && !extract
    {
      this.column := column;
      keys := [];
      hasKeys := false;
      equals := false;
      equalsValue := Nil;
      extract := false;
      path := "";
    }

    method Extract(path: string) returns (q: JSONQueryExpression)
      modifies this
      ensures q == this && extract && this.path == path
      ensures column == old(column) && keys == old(keys) && hasKeys == old(hasKeys)
      ensures equals == old(equals) && equalsValue == old(equalsValue)
    {
      extract := true;
      this.path := path;
      return this;
    }

    method HasKey(keys: seq<string>) returns (q: JSONQueryExpression)
      modifies this
      ensures q == this && this.keys == keys && hasKeys
      ensures column == old(column) && equals == old(equals) && equalsValue == old(equalsValue)
      ensures extract == old(extract) && path == old(path)
    {
      this.keys := keys;
      hasKeys := true;
      return this;
    }

    method Equals(value: Any, keys: seq<string>) returns (q: JSONQueryExpression)
      modifies this
      ensures q == this && this.keys == keys && equals && equalsValue == value
      ensures column == old(column) && hasKeys == old(hasKeys)
      ensures extract == old(extract) && path == old(path)
    {
      this.keys := keys;
      equals := true;
      equalsValue := value;
      return this;
    }
  }

  /** The setters only ever raise flags: a chain `HasKey` then `Equals`
      leaves both set, with the keys of the last call. */
  method ChainKeepsFlags(column: string, k1: seq<string>, v: Any, k2: seq<string>) returns (q: JSONQueryExpression)
    ensures q.column == column && q.hasKeys && q.equals && !q.extract
    ensures q.keys == k2 && q.equalsValue == v
  {
    q := new JSONQueryExpression.JSONQuery(column);
    q := q.HasKey(k1);
    q := q.Equals(v, k2);
  }
}
