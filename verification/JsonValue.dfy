/** JSON values and their text: members and items in order, `", "` between them and `": "` after a
    key, which is how the canonical text of REP-2016 is laid out. */
module JsonValues {
  import opened Text
  import opened Json

  datatype Value = Str(s: string) | Num(n: nat) | Arr(items: Items) | Obj(members: Members)

  datatype Items = NoItems | Item(value: Value, more: Items)

  datatype Members = NoMembers | Member(key: string, value: Value, more: Members)

  /** The text of `v`, followed by `k`. */
  function PrintThen(v: Value, k: string): string {
    match v
    case Str(s) => StringThen(s, k)
    case Num(n) => Dec(n) + k
    case Arr(items) => "[" + ItemsThen(items, k)
    case Obj(members) => "{" + MembersThen(members, k)
  }

  function ItemsThen(items: Items, k: string): string {
    match items
    case NoItems => "]" + k
    case Item(v, more) => PrintThen(v, MoreItemsThen(more, k))
  }

  function MoreItemsThen(items: Items, k: string): string {
    match items
    case NoItems => "]" + k
    case Item(v, more) => ", " + PrintThen(v, MoreItemsThen(more, k))
  }

  function MembersThen(members: Members, k: string): string {
    match members
    case NoMembers => "}" + k
    case Member(key, v, more) => StringThen(key, ": " + PrintThen(v, MoreMembersThen(more, k)))
  }

  function MoreMembersThen(members: Members, k: string): string {
    match members
    case NoMembers => "}" + k
    case Member(key, v, more) => ", " + StringThen(key, ": " + PrintThen(v, MoreMembersThen(more, k)))
  }

  /** A key and what stands around it, as one label. */
  lemma FirstMember(key: string, v: Value, more: Members, k: string, joined: string)
    requires forall i :: 0 <= i < |key| ==> Plain(key[i])
    requires "{" + ("\"" + key + "\"") + ": " == joined
    ensures PrintThen(Obj(Member(key, v, more)), k) == joined + PrintThen(v, MoreMembersThen(more, k))
  {
    Joined("{", key, PrintThen(v, MoreMembersThen(more, k)));
  }

  lemma NextMember(key: string, v: Value, more: Members, k: string, joined: string)
    requires forall i :: 0 <= i < |key| ==> Plain(key[i])
    requires ", " + ("\"" + key + "\"") + ": " == joined
    ensures MoreMembersThen(Member(key, v, more), k) == joined + PrintThen(v, MoreMembersThen(more, k))
  {
    Joined(", ", key, PrintThen(v, MoreMembersThen(more, k)));
  }

  lemma Joined(open: string, key: string, k: string)
    requires forall i :: 0 <= i < |key| ==> Plain(key[i])
    ensures open + StringThen(key, ": " + k) == open + ("\"" + key + "\"") + ": " + k
  {
    PlainPrintsAsItself(key, ": " + k);
    Assoc(open, "\"" + key + "\"", ": " + k);
    Assoc(open + ("\"" + key + "\""), ": ", k);
  }
}
