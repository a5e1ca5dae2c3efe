/**
 * Player.pretty_name: the display name of a player, derived from the raw Name field
 * of a batting-stats row. The rest of Player reads fields of the row and is not part
 * of this model.
 */
module Players {
  import opened Optional

  const BACKSLASH: char := '\\'

  /** The markers a raw name may carry after the name proper. */
  predicate IsMarker(c: char)
  {
    c == '*' || c == '#'
  }

  /** name.split("\\")[0]: the longest prefix of name without a backslash. */
  function NameHead(name: string): (h: string)
    ensures h <= name
    ensures BACKSLASH !in h
    ensures |h| < |name| ==> name[|h|] == BACKSLASH
  {
    if name == [] || name[0] == BACKSLASH then [] else [name[0]] + NameHead(name[1..])
  }

  /**
   * pretty_name: the name before the first backslash, without one trailing marker.
   * The source indexes the last character of that prefix, so an empty prefix (an
   * empty name, or one that starts with a backslash) is a fault: None.
   */
  function PrettyName(name: string): (r: Option<string>)
    ensures r.None? <==> name == [] || name[0] == BACKSLASH
    ensures r.Some? ==> r.value <= name && BACKSLASH !in r.value
    ensures r.Some? ==> |NameHead(name)| - 1 <= |r.value| <= |NameHead(name)|
  {
    var head := NameHead(name);
    if head == [] then None
    else if IsMarker(head[|head| - 1]) then Some(head[..|head| - 1])
    else Some(head)
  }

  /**
   * A raw name made of a name proper, at most one marker and an optional
   * backslash-led suffix gives back the name proper; a lone marker gives the empty name.
   */
  lemma PrettyNameOfDecorated(base: string, mark: string, rest: string)
    requires BACKSLASH !in base
    requires mark == "*" || mark == "#" || (mark == "" && base != [] && !IsMarker(base[|base| - 1]))
    requires rest == [] || rest[0] == BACKSLASH
    ensures PrettyName(base + mark + rest) == Some(base)
  {
    var head := base + mark;
    assert BACKSLASH !in head by {
      assert forall c :: c in head ==> c in base || c in mark;
    }
    HeadOfPrefix(head, rest);
    if mark == "" {
      assert head == base;
    } else {
      assert head[..|head| - 1] == base;
    }
  }

  /** The head of a backslash-free string followed by a backslash-led suffix is that string. */
  lemma {:induction false} HeadOfPrefix(s: string, rest: string)
    requires BACKSLASH !in s
    requires rest == [] || rest[0] == BACKSLASH
    ensures NameHead(s + rest) == s
  {
    if s != [] {
      assert (s + rest)[1..] == s[1..] + rest;
      HeadOfPrefix(s[1..], rest);
    }
  }
}
