// Splitting an artist tag into credits at "featuring" and "&" delimiters, and its agreement with
// the display string the reconciler builds from credits.

module ArtistTag {
  import opened Text
  import Reconciler

  datatype Delimiter = Delimiter(pattern: string, canonical: string)

  const FEATURING := Delimiter(" featuring ", " feat. ")
  const FEAT_DOT := Delimiter(" feat. ", " feat. ")
  const FEAT := Delimiter(" feat ", " feat. ")
  const FT_DOT := Delimiter(" ft. ", " ft. ")
  const FT := Delimiter(" ft ", " ft. ")
  const AMPERSAND := Delimiter(" & ", " & ")

  const DELIMITERS: seq<Delimiter> := [FEATURING, FEAT_DOT, FEAT, FT_DOT, FT, AMPERSAND]

  datatype Credit = Credit(name: string, joinPhrase: string)

  // ---- Matching ----

  function LowerAscii(c: char): char {
    if 'A' <= c <= 'Z' then (c as int + 32) as char else c
  }

  /** Delimiter `d` stands at position `p` of `s`, in any ASCII case. */
  predicate Matches(s: string, p: nat, d: nat)
    requires d < |DELIMITERS|
  {
    var pattern := DELIMITERS[d].pattern;
    p + |pattern| <= |s| && forall k | 0 <= k < |pattern| :: LowerAscii(s[p + k]) == pattern[k]
  }

  ghost predicate AnyAt(s: string, p: nat) {
    exists d: nat :: d < |DELIMITERS| && Matches(s, p, d)
  }

  ghost predicate Free(s: string) {
    forall p: nat :: !AnyAt(s, p)
  }

  /** Blanks stand only at a delimiter's two ends. */
  lemma PatternShape(d: nat)
    requires d < |DELIMITERS|
    ensures var t := DELIMITERS[d].pattern;
            |t| >= 3 && t[0] == ' ' && t[|t| - 1] == ' ' && forall k | 0 < k < |t| - 1 :: t[k] != ' '
  {
  }

  lemma PatternsDistinct(d: nat, e: nat)
    requires d < |DELIMITERS| && e < |DELIMITERS| && DELIMITERS[d].pattern == DELIMITERS[e].pattern
    ensures d == e
  {
  }

  /** Joining phrases are delimiters themselves. */
  lemma CanonicalIsPattern(d: nat) returns (e: nat)
    requires d < |DELIMITERS|
    ensures e < |DELIMITERS| && DELIMITERS[e].pattern == DELIMITERS[d].canonical == DELIMITERS[e].canonical
  {
    e := if d <= 2 then 1 else if d <= 4 then 3 else 5;
  }

  /** At one position stands at most one delimiter. */
  lemma OneDelimiter(s: string, p: nat, d: nat, e: nat)
    requires d < |DELIMITERS| && e < |DELIMITERS| && Matches(s, p, d) && Matches(s, p, e)
    ensures d == e
  {
    PatternShape(d);
    PatternShape(e);
    var t, u := DELIMITERS[d].pattern, DELIMITERS[e].pattern;
    hide DELIMITERS;
    forall k | 0 <= k < |t| && k < |u| ensures t[k] == u[k] {
      assert LowerAscii(s[p + k]) == t[k];
    }
    assert |t| == |u|;
    assert t == u;
    PatternsDistinct(d, e);
  }

  // ---- The scan ----

  /** The first position from `p` on where a delimiter stands; the length when there is none. */
  ghost function FirstFrom(s: string, p: nat): (q: nat)
    requires p <= |s|
    ensures p <= q <= |s| && (q == |s| || AnyAt(s, q))
    ensures forall r: nat | p <= r < q :: !AnyAt(s, r)
    decreases |s| - p
  {
    if p == |s| || AnyAt(s, p) then p else FirstFrom(s, p + 1)
  }

  ghost function Which(s: string, p: nat): (d: nat)
    requires AnyAt(s, p)
    ensures d < |DELIMITERS| && Matches(s, p, d)
  {
    var d: nat :| d < |DELIMITERS| && Matches(s, p, d);
    d
  }

  /** Past the delimiter at `p`. */
  ghost function After(s: string, p: nat): (q: nat)
    requires AnyAt(s, p)
    ensures p + 3 <= q <= |s|
  {
    PatternShape(Which(s, p));
    p + |DELIMITERS[Which(s, p)].pattern|
  }

  /** The credits of a tag: names before the delimiters, each with its delimiter's joining phrase. */
  ghost function Parse(s: string): seq<Credit>
    decreases |s|
  {
    if s == "" then []
    else
      var p := FirstFrom(s, 0);
      if p == |s| then [Credit(s, "")]
      else [Credit(s[..p], DELIMITERS[Which(s, p)].canonical)] + Parse(s[After(s, p)..])
  }

  /** The delimiters the scan passed, as they are written in the tag. */
  ghost function Passed(s: string): seq<string>
    decreases |s|
  {
    if s == "" then []
    else
      var p := FirstFrom(s, 0);
      if p == |s| then [""] else [s[p..After(s, p)]] + Passed(s[After(s, p)..])
  }

  function Interleave(credits: seq<Credit>, between: seq<string>): string
    requires |credits| == |between|
  {
    if credits == [] then "" else credits[0].name + between[0] + Interleave(credits[1..], between[1..])
  }

  /** `raw` is a delimiter with joining phrase `join` in some case, or both are empty. */
  ghost predicate WrittenAs(raw: string, join: string) {
    (raw == "" && join == "") || exists d: nat ::
        d < |DELIMITERS| && IsDelimiter(raw, d) && join == DELIMITERS[d].canonical
  }

  /** The whole of `raw` is delimiter `d`. */
  predicate IsDelimiter(raw: string, d: nat)
    requires d < |DELIMITERS|
  {
    |raw| == |DELIMITERS[d].pattern| && Matches(raw, 0, d)
  }

  /** Names and delimiters, interleaved, are the tag; joining phrases are the delimiters' own; and no name
      contains a delimiter. */
  lemma {:induction false} ParseRebuilds(s: string)
    ensures |Passed(s)| == |Parse(s)| && Interleave(Parse(s), Passed(s)) == s
    ensures forall i | 0 <= i < |Parse(s)| :: WrittenAs(Passed(s)[i], Parse(s)[i].joinPhrase) && Free(Parse(s)[i].name)
    decreases |s|
  {
    hide DELIMITERS, Matches, AnyAt, Free;
    if s != "" {
      var p := FirstFrom(s, 0);
      PrefixFree(s, p);
      if p == |s| {
        assert s[..p] == s;
        assert Parse(s)[1..] == [] && Passed(s)[1..] == [];
      } else {
        var d, q := Which(s, p), After(s, p);
        ParseRebuilds(s[q..]);
        assert IsDelimiter(s[p..q], d) by {
          MatchWithin(s, p, d);
        }
        assert s == s[..p] + s[p..q] + s[q..];
        assert Parse(s)[1..] == Parse(s[q..]) && Passed(s)[1..] == Passed(s[q..]);
        assert Parse(s)[0] == Credit(s[..p], DELIMITERS[d].canonical) && Passed(s)[0] == s[p..q];
      }
    }
  }

  lemma MatchWithin(s: string, p: nat, d: nat)
    requires d < |DELIMITERS| && Matches(s, p, d)
    ensures Matches(s[p..p + |DELIMITERS[d].pattern|], 0, d)
  {
  }

  /** A delimiter in a prefix is a delimiter of the whole. */
  lemma PrefixMatch(s: string, p: nat, r: nat)
    requires p <= |s| && AnyAt(s[..p], r)
    ensures AnyAt(s, r) && r + 3 <= p
  {
    hide DELIMITERS;
    var d: nat :| d < |DELIMITERS| && Matches(s[..p], r, d);
    PatternShape(d);
    assert Matches(s, r, d);
  }

  lemma PrefixFree(s: string, p: nat)
    requires p <= |s| && forall r: nat | r < p :: !AnyAt(s, r)
    ensures Free(s[..p])
  {
    hide AnyAt;
    forall r: nat ensures !AnyAt(s[..p], r) {
      if AnyAt(s[..p], r) {
        PrefixMatch(s, p, r);
      }
    }
  }

  // ---- Parsing a display string ----

  /** The display string of a credit list: the last joining phrase is dropped. */
  function Display(credits: seq<Credit>): string {
    if credits == [] then ""
    else if |credits| == 1 then credits[0].name
    else credits[0].name + credits[0].joinPhrase + Display(credits[1..])
  }

  /** What survives display and a second parse: the last joining phrase is lost, and with it a last credit that
      has no name. */
  function Kept(credits: seq<Credit>): seq<Credit> {
    if credits == [] then []
    else if |credits| == 1 then (if credits[0].name == "" then [] else [Credit(credits[0].name, "")])
    else [credits[0]] + Kept(credits[1..])
  }

  /** The last credit has no joining phrase, as in a tag the scan did not leave at a delimiter. */
  predicate Ended(credits: seq<Credit>) {
    credits == [] || credits[|credits| - 1].joinPhrase == ""
  }

  /** What a parse produces: a name that a delimiter follows is free of delimiters even with the blank after it. */
  ghost predicate Clean(credits: seq<Credit>)
    decreases |credits|
  {
    if credits == [] then true
    else if |credits| == 1 then Free(credits[0].name) && (credits[0].joinPhrase == "" ==> credits[0].name != "")
    else Free(credits[0].name + " ") && IsJoin(credits[0].joinPhrase) && Clean(credits[1..])
  }

  ghost predicate IsJoin(j: string) {
    exists d: nat :: d < |DELIMITERS| && DELIMITERS[d].canonical == j
  }

  lemma {:induction false} ParseIsClean(s: string)
    ensures Clean(Parse(s))
    decreases |s|
  {
    hide DELIMITERS;
    if s != "" {
      var p := FirstFrom(s, 0);
      PrefixFree(s, p);
      if p == |s| {
        assert s[..p] == s;
      } else {
        var d, q := Which(s, p), After(s, p);
        ParseIsClean(s[q..]);
        assert Parse(s)[1..] == Parse(s[q..]);
        PatternShape(d);
        NameAndBlank(s, p, d);
        JoinNotEmpty(d);
        assert Parse(s)[0].joinPhrase == DELIMITERS[d].canonical;
      }
    }
  }

  lemma JoinNotEmpty(d: nat)
    requires d < |DELIMITERS|
    ensures |DELIMITERS[d].canonical| >= 3 && DELIMITERS[d].canonical[0] == ' '
  {
  }

  /** The blank that opens a delimiter completes no earlier one. */
  lemma NameAndBlank(s: string, p: nat, d: nat)
    requires p < |s| && d < |DELIMITERS| && Matches(s, p, d) && forall r: nat | r < p :: !AnyAt(s, r)
    ensures Free(s[..p] + " ")
  {
    PatternShape(d);
    hide DELIMITERS;
    assert LowerAscii(s[p]) == ' ';
    var t := s[..p + 1];
    assert s[..p] + " " == t;
    forall r: nat ensures !AnyAt(t, r) {
      if AnyAt(t, r) {
        PrefixMatch(s, p + 1, r);
      }
    }
  }

  /** A clean name followed by a joining phrase is cut exactly there. */
  lemma CutAt(name: string, d: nat, rest: string)
    requires d < |DELIMITERS| && Free(name + " ")
    ensures var s := name + DELIMITERS[d].canonical + rest;
            && FirstFrom(s, 0) == |name| && |name| < |s| && AnyAt(s, |name|)
            && DELIMITERS[Which(s, |name|)].canonical == DELIMITERS[d].canonical
            && After(s, |name|) == |name| + |DELIMITERS[d].canonical|
  {
    var j := DELIMITERS[d].canonical;
    var s := name + j + rest;
    var e := CanonicalIsPattern(d);
    JoinNotEmpty(d);
    PatternLower(e);
    PatternShape(e);
    hide DELIMITERS;
    assert Matches(s, |name|, e) by {
      forall k | 0 <= k < |j| ensures LowerAscii(s[|name| + k]) == j[k] {
        assert s[|name| + k] == j[k];
      }
    }
    assert AnyAt(s, |name|);
    OneDelimiter(s, |name|, e, Which(s, |name|));
    forall r: nat | r < |name| ensures !AnyAt(s, r) {
      if AnyAt(s, r) {
        EndsByBlank(name, j, rest, r);
      }
    }
  }

  lemma PatternLower(d: nat)
    requires d < |DELIMITERS|
    ensures forall k | 0 <= k < |DELIMITERS[d].pattern| ::
      LowerAscii(DELIMITERS[d].pattern[k]) == DELIMITERS[d].pattern[k]
  {
  }

  /** A delimiter that begins inside the name ends inside it or with the blank after it. */
  lemma EndsByBlank(name: string, j: string, rest: string, r: nat)
    requires |j| >= 1 && j[0] == ' ' && r < |name| && AnyAt(name + j + rest, r)
    ensures AnyAt(name + " ", r)
  {
    hide DELIMITERS;
    var s, t := name + j + rest, name + " ";
    var d: nat :| d < |DELIMITERS| && Matches(s, r, d);
    PatternShape(d);
    var pattern := DELIMITERS[d].pattern;
    assert s[|name|] == ' ';
    assert forall k | 0 <= k < |pattern| && r + k == |name| :: pattern[k] == LowerAscii(s[r + k]) == ' ';
    assert |name| - r < |pattern| ==> pattern[|name| - r] == ' ';
    assert r + |pattern| <= |t|;
    forall k | 0 <= k < |pattern| ensures LowerAscii(t[r + k]) == pattern[k] {
      assert t[r + k] == s[r + k];
      assert LowerAscii(s[r + k]) == pattern[k];
    }
    assert Matches(t, r, d);
  }

  lemma {:induction false} ParseOfDisplay(credits: seq<Credit>)
    requires Clean(credits)
    ensures Parse(Display(credits)) == Kept(credits)
    decreases |credits|
  {
    hide DELIMITERS;
    if |credits| == 1 {
      var s := credits[0].name;
      if s != "" {
        assert !AnyAt(s, FirstFrom(s, 0));
        assert s[..|s|] == s;
      }
    } else if credits != [] {
      var name, rest := credits[0].name, Display(credits[1..]);
      var d: nat :| d < |DELIMITERS| && DELIMITERS[d].canonical == credits[0].joinPhrase;
      CutAt(name, d, rest);
      ParseOfDisplay(credits[1..]);
      var s := Display(credits);
      assert s == name + DELIMITERS[d].canonical + rest;
      assert s[..|name|] == name && s[After(s, |name|)..] == rest;
    }
  }

  lemma {:induction false} KeptIff(credits: seq<Credit>)
    requires Clean(credits)
    ensures Kept(credits) == credits <==> Ended(credits)
    decreases |credits|
  {
    hide DELIMITERS, Free;
    if |credits| > 1 {
      KeptIff(credits[1..]);
      assert Ended(credits) == Ended(credits[1..]);
      assert [credits[0]] + credits[1..] == credits;
      assert Kept(credits)[1..] == Kept(credits[1..]);
    }
  }

  /** Parsing the display of a parsed tag gives the same credits exactly when the last credit has no joining
      phrase; otherwise it gives them without that phrase, and without the last credit if that has no name. */
  lemma ReparseIff(tag: string)
    ensures Parse(Display(Parse(tag))) == Kept(Parse(tag))
    ensures Parse(Display(Parse(tag))) == Parse(tag) <==> Ended(Parse(tag))
  {
    ParseIsClean(tag);
    ParseOfDisplay(Parse(tag));
    KeptIff(Parse(tag));
  }

  /** The tag ends in a delimiter, in some case. */
  ghost predicate EndsInDelimiter(tag: string) {
    exists d: nat ::
        d < |DELIMITERS| && |tag| >= |DELIMITERS[d].pattern| && Matches(tag, |tag| - |DELIMITERS[d].pattern|, d)
  }

  /** A tag that does not end in a delimiter is parsed back from its display. */
  lemma ReparseUnlessDelimiterLast(tag: string)
    requires !EndsInDelimiter(tag)
    ensures Parse(Display(Parse(tag))) == Parse(tag)
  {
    LastJoinAtEnd(tag);
    ReparseIff(tag);
  }

  lemma {:induction false} LastJoinAtEnd(s: string)
    ensures !Ended(Parse(s)) ==> EndsInDelimiter(s)
    decreases |s|
  {
    hide DELIMITERS;
    if s != "" {
      var p := FirstFrom(s, 0);
      if p < |s| {
        var q := After(s, p);
        LastJoinAtEnd(s[q..]);
        assert Parse(s)[1..] == Parse(s[q..]);
        if s[q..] == "" {
          assert EndsInDelimiter(s);
        } else {
          NotEmptyParse(s[q..]);
          assert Ended(Parse(s)) == Ended(Parse(s[q..]));
          if EndsInDelimiter(s[q..]) {
            EndInSuffix(s, q);
          }
        }
      }
    }
  }

  lemma NotEmptyParse(s: string)
    requires s != ""
    ensures Parse(s) != []
  {
  }

  lemma EndInSuffix(s: string, q: nat)
    requires q <= |s| && EndsInDelimiter(s[q..])
    ensures EndsInDelimiter(s)
  {
    hide DELIMITERS;
    var d: nat :| d < |DELIMITERS| && |s| - q >= |DELIMITERS[d].pattern|
        && Matches(s[q..], |s| - q - |DELIMITERS[d].pattern|, d);
    var r := |s| - |DELIMITERS[d].pattern|;
    forall k | 0 <= k < |DELIMITERS[d].pattern| ensures LowerAscii(s[r + k]) == DELIMITERS[d].pattern[k] {
      assert s[r + k] == s[q..][r - q + k];
    }
    assert Matches(s, r, d);
  }

  /** The reconciler's display of credits that carry these names and phrases is the display string. */
  lemma {:induction false} ReconcilerDisplays(credits: seq<Credit>, artists: seq<Reconciler.DesiredArtist>)
    requires |artists| == |credits|
    requires forall i | 0 <= i < |artists| ::
      Coalesce(artists[i].name) == credits[i].name && Coalesce(artists[i].joinPhrase) == credits[i].joinPhrase
    ensures Reconciler.BuildDisplay(artists) == Display(credits)
  {
    if credits != [] {
      ReconcilerDisplays(credits[1..], artists[1..]);
      if |credits| == 1 {
        assert artists[1..] == [];
      }
    }
  }

  // ---- The delimiters ----

  /** `w` is the lower-case text `p` in some ASCII case. */
  predicate InAnyCase(w: string, p: string) {
    |w| == |p| && forall k | 0 <= k < |p| ::
      w[k] == p[k] || ('a' <= p[k] <= 'z' && w[k] as int == p[k] as int - 32)
  }

  /** How the tag joins two artists, and how the credit says so. */
  predicate Joins(w: string, j: string) {
    || ((InAnyCase(w, " featuring ") || InAnyCase(w, " feat. ") || InAnyCase(w, " feat ")) && j == " feat. ")
    || ((InAnyCase(w, " ft. ") || InAnyCase(w, " ft ")) && j == " ft. ")
    || (w == " & " && j == " & ")
  }

  lemma DelimiterOf(w: string, j: string) returns (d: nat)
    requires Joins(w, j)
    ensures d < |DELIMITERS| && InAnyCase(w, DELIMITERS[d].pattern) && DELIMITERS[d].canonical == j
  {
    hide InAnyCase;
    d := if InAnyCase(w, " featuring ") then 0 else if InAnyCase(w, " feat. ") then 1
         else if InAnyCase(w, " feat ") then 2 else if InAnyCase(w, " ft. ") then 3
         else if InAnyCase(w, " ft ") then 4 else 5;
    if d == 5 {
      assert InAnyCase(" & ", " & ") by { AsIs(" & "); }
    }
    if d < 3 {
      WidthsDiffer(w);
    } else if d < 5 {
      WidthsDiffer(w);
    }
  }

  lemma AsIs(p: string)
    ensures InAnyCase(p, p)
  {
  }

  /** A word is not of the "feat." and the "ft." family at once, and neither is an ampersand. */
  lemma WidthsDiffer(w: string)
    ensures InAnyCase(w, " featuring ") ==> |w| == 11
    ensures InAnyCase(w, " feat. ") ==> |w| == 7 && w[2] != 't'
    ensures InAnyCase(w, " feat ") ==> |w| == 6
    ensures InAnyCase(w, " ft. ") ==> |w| == 5
    ensures InAnyCase(w, " ft ") ==> |w| == 4
  {
  }

  lemma CaseMatches(s: string, p: nat, d: nat, w: string)
    requires d < |DELIMITERS| && InAnyCase(w, DELIMITERS[d].pattern) && p + |w| <= |s| && s[p..p + |w|] == w
    ensures Matches(s, p, d)
  {
    PatternLower(d);
    var pattern := DELIMITERS[d].pattern;
    hide DELIMITERS;
    forall k | 0 <= k < |pattern| ensures LowerAscii(s[p + k]) == pattern[k] {
      assert s[p + k] == s[p..p + |w|][k] == w[k];
      LowerOf(w[k], pattern[k]);
    }
  }

  lemma LowerOf(c: char, p: char)
    requires LowerAscii(p) == p && (c == p || ('a' <= p <= 'z' && c as int == p as int - 32))
    ensures LowerAscii(c) == p
  {
  }

  /** A name, a joining word in any ASCII case and more: the first credit is the name with the phrase that the word
      stands for, and the rest is parsed on its own. */
  lemma FirstCredit(name: string, w: string, j: string, rest: string)
    requires Joins(w, j) && Free(name + " ")
    ensures Parse(name + w + rest) == [Credit(name, j)] + Parse(rest)
  {
    var d := DelimiterOf(w, j);
    PatternShape(d);
    hide DELIMITERS, InAnyCase;
    var s := name + w + rest;
    assert w[0] == ' ' && |w| == |DELIMITERS[d].pattern| by { CaseShape(w, d); }
    CaseMatches(s, |name|, d, w) by { assert s[|name|..|name| + |w|] == w; }
    assert AnyAt(s, |name|);
    OneDelimiter(s, |name|, d, Which(s, |name|));
    forall r: nat | r < |name| ensures !AnyAt(s, r) {
      if AnyAt(s, r) {
        EndsByBlank(name, w, rest, r);
      }
    }
    assert FirstFrom(s, 0) == |name|;
    assert s[..|name|] == name && s[|name| + |w|..] == rest;
  }

  lemma CaseShape(w: string, d: nat)
    requires d < |DELIMITERS| && InAnyCase(w, DELIMITERS[d].pattern)
    ensures |w| == |DELIMITERS[d].pattern| >= 3 && w[0] == ' '
  {
    PatternShape(d);
  }

  /** A tag without a joining word is one credit, an empty one none. */
  lemma OneCredit(s: string)
    requires Free(s)
    ensures Parse(s) == if s == "" then [] else [Credit(s, "")]
  {
    if s != "" {
      assert FirstFrom(s, 0) == |s|;
    }
  }

  // ---- The scanner ----

  /** The first place from `cursor` on where delimiter `d` stands, or -1. */
  method FindPattern(tag: string, cursor: nat, d: nat) returns (pos: int)
    requires cursor <= |tag| && d < |DELIMITERS|
    ensures pos == -1 || (cursor <= pos < |tag| && Matches(tag, pos, d))
    ensures forall r: nat | cursor <= r < (if pos < 0 then |tag| else pos) :: !Matches(tag, r, d)
  {
    hide Matches;
    var p: nat := cursor;
    while p < |tag|
      invariant cursor <= p <= |tag|
      invariant forall r: nat | cursor <= r < p :: !Matches(tag, r, d)
    {
      if Matches(tag, p, d) {
        return p;
      }
      p := p + 1;
    }
    pos := -1;
  }

  lemma Shifted(tag: string, c: nat, p: nat, d: nat)
    requires c <= |tag| && d < |DELIMITERS|
    ensures Matches(tag[c..], p, d) == Matches(tag, c + p, d)
  {
    hide DELIMITERS, LowerAscii;
    var pattern := DELIMITERS[d].pattern;
    var rest := tag[c..];
    if c + p + |pattern| <= |tag| {
      forall k | 0 <= k < |pattern|
        ensures LowerAscii(rest[p + k]) == pattern[k] <==> LowerAscii(tag[c + p + k]) == pattern[k]
      {
      }
    }
  }

  lemma FirstIs(s: string, p: nat)
    requires p <= |s| && (p == |s| || AnyAt(s, p)) && forall r: nat | r < p :: !AnyAt(s, r)
    ensures FirstFrom(s, 0) == p
  {
    hide AnyAt;
  }

  /** The rest of the tag has no delimiter before `pos`. */
  lemma NoneBefore(tag: string, cursor: nat, pos: nat)
    requires cursor <= pos <= |tag|
    requires forall e: nat, r: nat | e < |DELIMITERS| && cursor <= r < pos :: !Matches(tag, r, e)
    ensures forall r: nat | r < pos - cursor :: !AnyAt(tag[cursor..], r)
  {
    hide DELIMITERS, Matches;
    forall r: nat | r < pos - cursor ensures !AnyAt(tag[cursor..], r) {
      forall e: nat | e < |DELIMITERS| ensures !Matches(tag[cursor..], r, e) {
        Shifted(tag, cursor, r, e);
      }
    }
  }

  lemma NothingFound(tag: string, cursor: nat)
    requires cursor < |tag|
    requires forall e: nat, r: nat | e < |DELIMITERS| && cursor <= r < |tag| :: !Matches(tag, r, e)
    ensures Parse(tag[cursor..]) == [Credit(tag[cursor..], "")]
  {
    hide DELIMITERS, Matches, AnyAt;
    NoneBefore(tag, cursor, |tag|);
    FirstIs(tag[cursor..], |tag| - cursor);
  }

  lemma EarliestFound(tag: string, cursor: nat, pos: nat, d: nat)
    requires cursor <= pos < |tag| && d < |DELIMITERS| && Matches(tag, pos, d)
    requires forall e: nat, r: nat | e < |DELIMITERS| && cursor <= r < pos :: !Matches(tag, r, e)
    ensures var next := pos + |DELIMITERS[d].pattern|;
            next <= |tag| && pos < next
            && Parse(tag[cursor..]) == [Credit(tag[cursor..pos], DELIMITERS[d].canonical)] + Parse(tag[next..])
  {
    PatternShape(d);
    assert pos + |DELIMITERS[d].pattern| <= |tag|;
    var s, p := tag[cursor..], pos - cursor;
    NoneBefore(tag, cursor, pos);
    Shifted(tag, cursor, p, d);
    hide DELIMITERS, Matches;
    assert AnyAt(s, p);
    FirstIs(s, p);
    OneDelimiter(s, p, d, Which(s, p));
    assert s[..p] == tag[cursor..pos] && s[After(s, p)..] == tag[pos + |DELIMITERS[d].pattern|..];
  }

  /** Scans for the earliest delimiter, cuts there, and goes on behind it. */
  method ParseArtistTag(tag: string) returns (credits: seq<Credit>)
    ensures credits == Parse(tag)
  {
    hide DELIMITERS, Matches, AnyAt, Parse;
    credits := [];
    assert tag[0..] == tag;
    var cursor: nat := 0;
    while cursor < |tag|
      invariant cursor <= |tag| && credits + Parse(tag[cursor..]) == Parse(tag[0..])
      decreases |tag| - cursor
    {
      var bestPos: int, bestDelim: nat := -1, 0;
      var d: nat := 0;
      while d < |DELIMITERS|
        invariant d <= |DELIMITERS|
        invariant bestPos == -1
          || (cursor <= bestPos < |tag| && bestDelim < |DELIMITERS| && Matches(tag, bestPos, bestDelim))
        invariant forall e: nat, r: nat | e < d && cursor <= r < (if bestPos < 0 then |tag| else bestPos) ::
          !Matches(tag, r, e)
      {
        var p := FindPattern(tag, cursor, d);
        if p >= 0 && (bestPos < 0 || p < bestPos) {
          bestPos, bestDelim := p, d;
        }
        if bestPos == cursor {
          break;
        }
        d := d + 1;
      }
      if bestPos < 0 {
        NothingFound(tag, cursor);
        return credits + [Credit(tag[cursor..], "")];
      }
      EarliestFound(tag, cursor, bestPos, bestDelim);
      credits := credits + [Credit(tag[cursor..bestPos], DELIMITERS[bestDelim].canonical)];
      cursor := bestPos + |DELIMITERS[bestDelim].pattern|;
    }
    ParseNothing(tag[cursor..]);
  }

  lemma ParseNothing(s: string)
    requires s == ""
    ensures Parse(s) == []
  {
  }
}
