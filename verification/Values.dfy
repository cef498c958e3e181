/** Decoded JSON values and their bounded traversal (transport.py, `_json_value`). */
module Values {
  import opened Wrappers

  const MAX_JSON_DEPTH := 32
  const MAX_JSON_ITEMS := 10_000

  datatype Key = Name(text: string) | NotText

  /** A Python object that may stand in a JSON document; `Other` is any unsupported type.
      A mapping is its keys in order and, at the same positions, its values. */
  datatype Value =
    | Null
    | Bool(b: bool)
    | Int(i: int)
    | Float(f: real)
    | NonFinite
    | Str(s: string)
    | List(items: seq<Value>)
    | Obj(keys: seq<Key>, items: seq<Value>)
    | Other
  {
    predicate IsContainer() {
      List? || Obj?
    }
  }

  /** Python's `mapping.get(name)`, None when the key is absent. */
  function Get(v: Value, name: string): Option<Value>
    requires v.Obj?
  {
    GetFrom(v.keys, v.items, name)
  }

  function GetFrom(keys: seq<Key>, items: seq<Value>, name: string): Option<Value> {
    if keys == [] || items == [] then None
    else if keys[0] == Name(name) then Some(items[0])
    else GetFrom(keys[1..], items[1..], name)
  }

  /** The mapping has this value under this name: it stands at the first position of the name. */
  ghost predicate Maps(v: Value, name: string, x: Value)
    requires v.Obj?
  {
    exists i :: 0 <= i < |v.keys| && i < |v.items| && v.keys[i] == Name(name) && v.items[i] == x
                && forall j | 0 <= j < i :: v.keys[j] != Name(name)
  }

  /** `get` finds exactly what the mapping has. */
  lemma GetIsExact(v: Value, name: string, x: Value)
    requires v.Obj?
    ensures Get(v, name) == Some(x) <==> Maps(v, name, x)
    ensures Get(v, name).None? <==> forall i | 0 <= i < |v.keys| && i < |v.items| :: v.keys[i] != Name(name)
  {
    FirstIsFound(v.keys, v.items, name);
  }

  lemma {:induction false} FirstIsFound(keys: seq<Key>, items: seq<Value>, name: string)
    ensures match GetFrom(keys, items, name)
            case None => forall i | 0 <= i < |keys| && i < |items| :: keys[i] != Name(name)
            case Some(x) =>
              exists i :: 0 <= i < |keys| && i < |items| && keys[i] == Name(name) && items[i] == x
                          && forall j | 0 <= j < i :: keys[j] != Name(name)
  {
    if keys != [] && items != [] && keys[0] != Name(name) {
      var tail, rest := keys[1..], items[1..];
      FirstIsFound(tail, rest, name);
      match GetFrom(tail, rest, name)
      case None =>
        forall i | 0 <= i < |keys| && i < |items| ensures keys[i] != Name(name) {
          assert i > 0 ==> keys[i] == tail[i - 1];
        }
      case Some(x) =>
        var i :| 0 <= i < |tail| && i < |rest| && tail[i] == Name(name) && rest[i] == x
                 && forall j | 0 <= j < i :: tail[j] != Name(name);
        assert keys[i + 1] == Name(name) && items[i + 1] == x;
        forall j | 0 <= j < i + 1 ensures keys[j] != Name(name) {
          assert j > 0 ==> keys[j] == tail[j - 1];
        }
    }
  }

  /** Number of value nodes in the tree. */
  function Nodes(v: Value): (n: nat)
    ensures n >= 1
    decreases v, 1
  {
    if v.IsContainer() then 1 + NodesOf(v.items) else 1
  }

  function NodesOf(items: seq<Value>): nat
    decreases items, 0
  {
    if items == [] then 0
    else NodesOf(items[..|items| - 1]) + Nodes(items[|items| - 1])
  }

  /** Length of the longest path from the root to a node. */
  function Height(v: Value): nat
    decreases v, 1
  {
    if v.IsContainer() && v.items != [] then 1 + HeightOf(v.items) else 0
  }

  function HeightOf(items: seq<Value>): nat
    decreases items, 0
  {
    if items == [] then 0
    else
      var front, last := HeightOf(items[..|items| - 1]), Height(items[|items| - 1]);
      if front > last then front else last
  }

  /** Every leaf is a supported finite value and every mapping key is text. */
  predicate Supported(v: Value)
    decreases v, 1
  {
    match v
    case NonFinite => false
    case Other => false
    case List(items) => forall i | 0 <= i < |items| :: Supported(items[i])
    case Obj(keys, items) => NotText !in keys && forall i | 0 <= i < |items| :: Supported(items[i])
    case _ => true
  }

  /** What `_json_value` promises to accept, stated without any traversal order. */
  predicate Acceptable(v: Value, depth: nat) {
    Supported(v) && depth + Height(v) <= MAX_JSON_DEPTH && Nodes(v) <= MAX_JSON_ITEMS
  }

  lemma NoNodes()
    ensures NodesOf([]) == 0
  {
  }

  lemma {:induction false} NodesOfPrefix(items: seq<Value>, i: nat)
    requires i <= |items|
    ensures NodesOf(items[..i]) + (|items| - i) <= NodesOf(items)
    ensures i < |items| ==> NodesOf(items[..i + 1]) == NodesOf(items[..i]) + Nodes(items[i])
    ensures i < |items| ==> Nodes(items[i]) < 1 + NodesOf(items)
    decreases |items| - i
  {
    if i < |items| {
      assert items[..i + 1][..i] == items[..i];
      NodesOfPrefix(items, i + 1);
    } else {
      assert items[..i] == items;
    }
  }

  lemma {:induction false} HeightOfBounds(items: seq<Value>, bound: nat)
    ensures HeightOf(items) <= bound <==> forall i | 0 <= i < |items| :: Height(items[i]) <= bound
  {
    if items != [] {
      var front, last := items[..|items| - 1], items[|items| - 1];
      HeightOfBounds(front, bound);
      assert items == front + [last];
      assert last == items[|items| - 1];
      if forall i | 0 <= i < |items| :: Height(items[i]) <= bound {
        assert forall i | 0 <= i < |front| :: front[i] == items[i];
      }
      if HeightOf(items) <= bound {
        forall i | 0 <= i < |items| ensures Height(items[i]) <= bound {
          if i < |front| { assert items[i] == front[i]; }
        }
      }
    }
  }

  lemma AcceptableContainer(v: Value, depth: nat)
    requires v.IsContainer() && depth <= MAX_JSON_DEPTH
    ensures Acceptable(v, depth) <==>
            && (v.Obj? ==> NotText !in v.keys)
            && (forall i | 0 <= i < |v.items| :: Acceptable(v.items[i], depth + 1))
            && Nodes(v) <= MAX_JSON_ITEMS
  {
    var items := v.items;
    forall i | 0 <= i < |items| ensures Nodes(items[i]) < Nodes(v) {
      NodesOfPrefix(items, i);
    }
    if depth < MAX_JSON_DEPTH {
      HeightOfBounds(items, MAX_JSON_DEPTH - depth - 1);
    }
    if items != [] {
      assert depth == MAX_JSON_DEPTH ==> !Acceptable(items[0], depth + 1);
    }
  }

  /** `_json_value`: the early aborts decide exactly `Acceptable`, and the count is exact. */
  method JsonValue(v: Value, depth: nat) returns (total: Option<nat>)
    ensures total == if Acceptable(v, depth) then Some(Nodes(v)) else None
    decreases v
  {
    if depth > MAX_JSON_DEPTH {
      return None;
    }
    match v {
      case NonFinite => return None;
      case Other => return None;
      case List(items) =>
        AcceptableContainer(v, depth);
        total := JsonItems(items, depth);
      case Obj(keys, items) =>
        AcceptableContainer(v, depth);
        if NotText in keys {
          return None;
        }
        total := JsonItems(items, depth);
      case _ => return Some(1);
    }
  }

  /** The loop that both container branches of `_json_value` run over their children. */
  method JsonItems(items: seq<Value>, depth: nat) returns (total: Option<nat>)
    ensures total == if (forall i | 0 <= i < |items| :: Acceptable(items[i], depth + 1))
                        && 1 + NodesOf(items) <= MAX_JSON_ITEMS
                     then Some(1 + NodesOf(items)) else None
    decreases items
  {
    hide Acceptable, NodesOf;
    NoNodes();
    var sum := 1;
    for i := 0 to |items|
      invariant sum == 1 + NodesOf(items[..i])
      invariant sum <= MAX_JSON_ITEMS
      invariant forall j | 0 <= j < i :: Acceptable(items[j], depth + 1)
    {
      NodesOfPrefix(items, i);
      var count := JsonValue(items[i], depth + 1);
      if count.None? {
        return None;
      }
      sum := sum + count.value;
      NodesOfPrefix(items, i + 1);
      if sum > MAX_JSON_ITEMS {
        return None;
      }
    }
    assert items[..|items|] == items;
    return Some(sum);
  }
}
