/** Shared constants and the `trim` helper (config/config.hpp). */
module Config {
  import opened Wrappers

  const LEFT_LIMITER: string := "["
  const RIGHT_LIMITER: string := "]"
  const DELIMITER: string := ","
  const INDENT: string := "  "
  const STR_YES: string := "YES"
  const STR_NO: string := "NO"

  /** A decision printed as a line: `YES` or `NO` followed by `endl`. */
  function Verdict(b: bool): (r: string)
    ensures r == STR_YES + "\n" || r == STR_NO + "\n"
    ensures r == STR_YES + "\n" <==> b
  {
    if b then STR_YES + "\n" else STR_NO + "\n"
  }

  /** Items separated by `sep`, built the way the source's output loops
      build it: the first item bare, every later one after a separator. */
  function Join(items: seq<string>, sep: string): string
  {
    if |items| == 0 then ""
    else if |items| == 1 then items[0]
    else Join(items[..|items| - 1], sep) + sep + items[|items| - 1]
  }

  /** One more item: bare when it is the first, else after a separator. */
  lemma JoinSnoc(items: seq<string>, x: string, sep: string)
    ensures Join(items + [x], sep) == if |items| == 0 then x else Join(items, sep) + sep + x
  {
    assert (items + [x])[..|items|] == items;
  }

  /** Joining is the same read from the front. */
  lemma {:induction false} JoinCons(x: string, items: seq<string>, sep: string)
    requires |items| > 0
    ensures Join([x] + items, sep) == x + sep + Join(items, sep)
    decreases |items|
  {
    var all := [x] + items;
    if |items| == 1 {
      assert all[..1] == [x];
    } else {
      assert all[..|all| - 1] == [x] + items[..|items| - 1];
      JoinCons(x, items[..|items| - 1], sep);
    }
  }

  predicate HasNonSpace(s: string)
  {
    exists k :: 0 <= k < |s| && s[k] != ' '
  }

  /** `s.find_first_not_of(" ", from)`: npos is None. */
  function FindFirstNotSpace(s: string, from: nat): (r: Option<nat>)
    requires from <= |s|
    ensures r.Some? ==> from <= r.value < |s| && s[r.value] != ' '
    ensures forall k :: from <= k < |s| && (r.None? || k < r.value) ==> s[k] == ' '
    decreases |s| - from
  {
    if from == |s| then None
    else if s[from] != ' ' then Some(from)
    else FindFirstNotSpace(s, from + 1)
  }

  /** `s.find_last_not_of(" ")`, searching below `upto`: npos is None. */
  function FindLastNotSpace(s: string, upto: nat): (r: Option<nat>)
    requires upto <= |s|
    ensures r.Some? ==> r.value < upto && s[r.value] != ' '
    ensures forall k :: 0 <= k < upto && (r.None? || r.value < k) ==> s[k] == ' '
  {
    if upto == 0 then None
    else if s[upto - 1] != ' ' then Some(upto - 1)
    else FindLastNotSpace(s, upto - 1)
  }

  /** `s.substr(pos, count)`: the count is clipped at the end of the string;
      a position past the end throws, so it is required away. */
  function Substr(s: string, pos: nat, count: nat): (r: string)
    requires pos <= |s|
    ensures r == s[pos..if pos + count <= |s| then pos + count else |s|]
  {
    if pos + count <= |s| then s[pos..pos + count] else s[pos..]
  }

  /** `trim(s)`: strips leading and trailing spaces (only ' ', so a tab is
      kept). When no character is a non-space, npos falls back to 0 for the
      start and to size() for the end, and the clipped substr returns the
      whole string unchanged. */
  function Trim(s: string): (r: string)
    ensures exists i, j :: 0 <= i <= j <= |s| && r == s[i..j]
                           && (forall k :: 0 <= k < i ==> s[k] == ' ')
                           && (forall k :: j <= k < |s| ==> s[k] == ' ')
    ensures HasNonSpace(s) ==> |r| > 0 && r[0] != ' ' && r[|r| - 1] != ' '
    ensures !HasNonSpace(s) ==> r == s
  {
    var first := FindFirstNotSpace(s, 0);
    var last := FindLastNotSpace(s, |s|);
    var init := if first.None? then 0 else first.value;
    var end := if last.None? then |s| else last.value;
    assert first.Some? <==> last.Some?;
    Substr(s, init, end - init + 1)
  }

  /** Trimming twice is trimming once. */
  lemma TrimIdempotent(s: string)
    ensures Trim(Trim(s)) == Trim(s)
  {
    var r := Trim(s);
    if HasNonSpace(s) {
      assert FindFirstNotSpace(r, 0) == Some(0);
      assert FindLastNotSpace(r, |r|) == Some(|r| - 1);
    }
  }
}
