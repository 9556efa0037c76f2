/** Small definitions shared by the component models. */
module Prelude {

  datatype Option<+T> = None | Some(value: T) {
    function GetOr(default: T): T {
      match this
      case Some(v) => v
      case None => default
    }
  }

  /** The white space and line terminators that `trim` removes. */
  predicate Space(c: char) {
    var code := c as int;
    || 0x9 <= code <= 0xD || 0x2000 <= code <= 0x200A
    || code in {0x20, 0xA0, 0x1680, 0x2028, 0x2029, 0x202F, 0x205F, 0x3000, 0xFEFF}
  }

  /** Nothing but white space, so that trimming leaves nothing. */
  predicate Blank(s: string) {
    forall c :: c in s ==> Space(c)
  }

  ghost predicate NoDup<T>(s: seq<T>) {
    forall i, j :: 0 <= i < j < |s| ==> s[i] != s[j]
  }

  /** `list` enumerates the set `items`: every item once, in some order. */
  ghost predicate Lists<T(!new)>(list: seq<T>, items: set<T>) {
    NoDup(list) && forall x :: x in list <==> x in items
  }

  /** An unordered collection read out in an arbitrary order, as Redis KEYS does. */
  method Enumerate<T(==, !new)>(items: set<T>) returns (list: seq<T>)
    ensures Lists(list, items)
    ensures forall i :: 0 <= i < |list| ==> list[i] in items
  {
    list := [];
    var rest := items;
    while rest != {}
      invariant rest <= items
      invariant Lists(list, items - rest)
      decreases rest
    {
      var x :| x in rest;
      rest := rest - {x};
      list := list + [x];
    }
  }
}
