/** The line grammar of the Markdown index: `^-\s+(key):\s*\[(items)\]\s*$` with the key free of
    colons, matched anywhere in a text. White space in it may be a line break. */
module IndexGrammar {
  import opened Wrappers
  import opened PythonText

  datatype Match = Match(key: string, items: string, end: nat)

  /** The end of the run of white space that starts at `i`. */
  function SkipSpace(t: string, i: nat): (r: nat)
    requires i <= |t|
    ensures i <= r <= |t|
    decreases |t| - i
  {
    if i < |t| && PySpace(t[i]) then SkipSpace(t, i + 1) else i
  }

  /** The first `c` at or after `i`, or the end of the text. */
  function Find(t: string, i: nat, c: char): (r: nat)
    requires i <= |t|
    ensures i <= r <= |t|
    decreases |t| - i
  {
    if i < |t| && t[i] != c then Find(t, i + 1, c) else i
  }

  /** The last `c` in `t[lo..hi]`, or `hi`. */
  function FindLast(t: string, lo: nat, hi: nat, c: char): (r: nat)
    requires lo <= hi <= |t|
    ensures lo <= r <= hi
    ensures r < hi ==> t[r] == c
    decreases hi - lo
  {
    if lo == hi then hi
    else if t[hi - 1] == c then hi - 1
    else
      var r := FindLast(t, lo, hi - 1, c);
      if r == hi - 1 then hi else r
  }

  /** Where a match ends: the furthest point of the white space from `i` on at which a line ends. */
  function MatchEnd(t: string, i: nat): (r: nat)
    requires i <= |t|
    ensures i <= r <= |t|
  {
    var w := SkipSpace(t, i);
    if w == |t| then w else FindLast(t, i, w, '\n')
  }

  /** The key half of the pattern at `i`, `-\s+(key):` — where the key starts and where its
      colon is. White space is taken greedily; one space is given back if the key would be empty. */
  function KeyAt(t: string, i: nat): (r: Option<(nat, nat)>)
    requires i <= |t|
    ensures r.Some? ==> i + 2 <= r.value.0 < r.value.1 < |t|
  {
    if i == |t| || t[i] != '-' then None else
    var w := SkipSpace(t, i + 1);
    var c := Find(t, i + 1, ':');
    var k := if w < c then w else c - 1;
    if c == |t| || k < i + 2 || c <= k then None else Some((k, c))
  }

  /** The other half after the colon, `\s*\[(items)\]\s*$` — where both brackets are. */
  function ItemsAt(t: string, i: nat): (r: Option<(nat, nat)>)
    requires i <= |t|
    ensures r.Some? ==> i <= r.value.0 < r.value.1 < |t|
  {
    var p := SkipSpace(t, i);
    if p == |t| || t[p] != '[' then None else
    var eol := Find(t, p + 1, '\n');
    var e := FindLast(t, p + 1, eol, ']');
    if e == eol || SkipSpace(t, e + 1) < eol then None else Some((p, e))
  }

  /** The match the regular expression engine returns at a line start `i`. */
  function MatchAt(t: string, i: nat): (m: Option<Match>)
    requires i <= |t|
    ensures m.Some? ==> i < m.value.end <= |t|
  {
    match KeyAt(t, i)
    case None => None
    case Some((k, c)) =>
      match ItemsAt(t, c + 1)
      case None => None
      case Some((p, e)) => Some(Match(t[k..c], t[p + 1..e], MatchEnd(t, e + 1)))
  }

  lemma NoDashNoMatch(t: string, i: nat)
    requires i <= |t| && (i == |t| || t[i] != '-')
    ensures MatchAt(t, i).None?
  {
    hide ItemsAt, MatchEnd, SkipSpace, Find;
  }

  ghost predicate SpaceRun(t: string, a: nat, b: nat)
    requires b <= |t|
  {
    forall j | a <= j < b :: PySpace(t[j])
  }

  ghost predicate Without(t: string, a: nat, b: nat, c: char)
    requires b <= |t|
  {
    forall j | a <= j < b :: t[j] != c
  }

  ghost predicate DerivesKey(t: string, i: nat, k: nat, c: nat) {
    && i + 2 <= k < c < |t|
    && t[i] == '-' && SpaceRun(t, i + 1, k)
    && Without(t, k, c, ':') && t[c] == ':'
  }

  ghost predicate DerivesItems(t: string, i: nat, p: nat, e: nat, s: nat) {
    && i <= p < e < s <= |t|
    && SpaceRun(t, i, p) && t[p] == '['
    && Without(t, p + 1, e, '\n') && t[e] == ']'
    && SpaceRun(t, e + 1, s) && (s == |t| || t[s] == '\n')
  }

  /** One way to read the pattern at `i`: key `t[k..c]`, items `t[p + 1..e]`, end of match `s`. */
  ghost predicate Derives(t: string, i: nat, k: nat, c: nat, p: nat, e: nat, s: nat) {
    DerivesKey(t, i, k, c) && DerivesItems(t, c + 1, p, e, s)
  }

  lemma {:induction false} SkipSpaceStops(t: string, i: nat)
    requires i <= |t|
    ensures var w := SkipSpace(t, i); (w == |t| || !PySpace(t[w])) && SpaceRun(t, i, w)
    decreases |t| - i
  {
    if i < |t| && PySpace(t[i]) { SkipSpaceStops(t, i + 1); }
  }

  lemma {:induction false} FindStops(t: string, i: nat, c: char)
    requires i <= |t|
    ensures var r := Find(t, i, c); (r < |t| ==> t[r] == c) && Without(t, i, r, c)
    decreases |t| - i
  {
    if i < |t| && t[i] != c { FindStops(t, i + 1, c); }
  }

  lemma {:induction false} FindLastStops(t: string, lo: nat, hi: nat, c: char)
    requires lo <= hi <= |t|
    ensures var r := FindLast(t, lo, hi, c); Without(t, r + 1, hi, c) && (r == hi ==> Without(t, lo, hi, c))
    decreases hi - lo
  {
    if lo < hi && t[hi - 1] != c { FindLastStops(t, lo, hi - 1, c); }
  }

  /** A match ends where a line ends, after white space only, and as far out as that allows. */
  lemma MatchEndStops(t: string, i: nat, s: nat)
    requires i <= s <= |t| && SpaceRun(t, i, s) && (s == |t| || t[s] == '\n')
    ensures var r := MatchEnd(t, i); s <= r && SpaceRun(t, i, r) && (r == |t| || t[r] == '\n')
  {
    var w := SkipSpace(t, i);
    SkipSpaceStops(t, i);
    FindLastStops(t, i, w, '\n');
    assert PySpace('\n');
    assert w < |t| ==> s < w;
  }

  lemma KeyAtIsDerivation(t: string, i: nat)
    requires i <= |t| && KeyAt(t, i).Some?
    ensures var (k, c) := KeyAt(t, i).value; DerivesKey(t, i, k, c)
  {
    var w, c := SkipSpace(t, i + 1), Find(t, i + 1, ':');
    SkipSpaceStops(t, i + 1);
    FindStops(t, i + 1, ':');
  }

  lemma ItemsAtIsDerivation(t: string, i: nat)
    requires i <= |t| && ItemsAt(t, i).Some?
    ensures var (p, e) := ItemsAt(t, i).value; DerivesItems(t, i, p, e, MatchEnd(t, e + 1))
  {
    hide PySpace, MatchEnd;
    PlainCharacters();
    var p := SkipSpace(t, i);
    SkipSpaceStops(t, i);
    var eol := Find(t, p + 1, '\n');
    FindStops(t, p + 1, '\n');
    var e := FindLast(t, p + 1, eol, ']');
    SkipSpaceStops(t, e + 1);
    MatchEndStops(t, e + 1, eol);
  }

  /** What the engine returns is a reading of the pattern. */
  lemma MatchAtIsDerivation(t: string, i: nat) returns (k: nat, c: nat, p: nat, e: nat)
    requires i <= |t| && MatchAt(t, i).Some?
    ensures var m := MatchAt(t, i).value;
            Derives(t, i, k, c, p, e, m.end) && m.key == t[k..c] && m.items == t[p + 1..e]
  {
    hide PySpace, MatchEnd, KeyAt, ItemsAt;
    k, c := KeyAt(t, i).value.0, KeyAt(t, i).value.1;
    p, e := ItemsAt(t, c + 1).value.0, ItemsAt(t, c + 1).value.1;
    KeyAtIsDerivation(t, i);
    ItemsAtIsDerivation(t, c + 1);
  }

  /** White space in front of a key does not change what stripping leaves. */
  lemma {:induction false} StripSuffix(t: string, a: nat, b: nat, c: nat)
    requires a <= b <= c <= |t| && SpaceRun(t, a, b)
    ensures Strip(t[a..c]) == Strip(t[b..c])
    decreases b - a
  {
    if a < b {
      assert t[a..c][1..] == t[a + 1..c];
      StripSuffix(t, a + 1, b, c);
    }
  }

  lemma DerivedKeyIsFound(t: string, i: nat, k: nat, c: nat)
    requires DerivesKey(t, i, k, c)
    ensures KeyAt(t, i).Some?
    ensures KeyAt(t, i).value.1 == c && k <= KeyAt(t, i).value.0 && SpaceRun(t, k, KeyAt(t, i).value.0)
  {
    var w, colon := SkipSpace(t, i + 1), Find(t, i + 1, ':');
    SkipSpaceStops(t, i + 1);
    FindStops(t, i + 1, ':');
    assert colon == c;
  }

  lemma DerivedItemsAreFound(t: string, i: nat, p: nat, e: nat, s: nat)
    requires DerivesItems(t, i, p, e, s)
    ensures ItemsAt(t, i) == Some((p, e)) && s <= MatchEnd(t, e + 1)
  {
    hide PySpace, MatchEnd, SkipSpace, Find, FindLast;
    PlainCharacters();
    var q, eol := SkipSpace(t, i), Find(t, p + 1, '\n');
    SkipSpaceStops(t, i);
    FindStops(t, p + 1, '\n');
    assert e < eol <= s;
    var last := FindLast(t, p + 1, eol, ']');
    FindLastStops(t, p + 1, eol, ']');
    assert last == e;
    SkipSpaceStops(t, e + 1);
    MatchEndStops(t, e + 1, s);
  }

  /** The pattern is unambiguous where it matters: if it can be read at `i` at all, the engine
      matches there, with the same items and the same key up to white space in front, and its
      match reaches at least as far. */
  lemma DerivationIsMatched(t: string, i: nat, k: nat, c: nat, p: nat, e: nat, s: nat)
    requires Derives(t, i, k, c, p, e, s)
    ensures MatchAt(t, i).Some?
    ensures var m := MatchAt(t, i).value;
            Strip(m.key) == Strip(t[k..c]) && m.items == t[p + 1..e] && m.end == MatchEnd(t, e + 1) && s <= m.end
  {
    hide KeyAt, ItemsAt, MatchEnd, Strip, PySpace;
    DerivedKeyIsFound(t, i, k, c);
    DerivedItemsAreFound(t, c + 1, p, e, s);
    var start := KeyAt(t, i).value.0;
    assert MatchAt(t, i) == Some(Match(t[start..c], t[p + 1..e], MatchEnd(t, e + 1)));
    assert Strip(t[k..c]) == Strip(t[start..c]) by { StripSuffix(t, k, start, c); }
  }
}
