// Genre lists: semicolon-separated tag values and the merge of two of them.
// Case folding (`lower`) is a parameter: every result holds for any folding.

module Text {

  /** A C string pointer: NULL or characters. */
  datatype Text = Null | Chars(chars: string)

  /** The characters of a text, with NULL read as the empty string. */
  function Coalesce(t: Text): string {
    match t
    case Null => ""
    case Chars(s) => s
  }

  /** Null-safe equality: NULL and "" are the same value. */
  predicate SameText(a: Text, b: Text) {
    Coalesce(a) == Coalesce(b)
  }

  ghost function PickId(s: set<int>): (i: int)
    requires s != {}
    ensures i in s
  {
    HasElement(s);
    var i :| i in s;
    i
  }

  /** A non-empty set of ids has an element to pick. */
  lemma HasElement(s: set<int>)
    requires s != {}
    ensures exists i :: i in s
  {
    if forall i :: i !in s {
      assert false;
    }
  }
}

module Genre {
  import opened Text

  predicate IsSpace(c: char) {
    c == ' ' || c == '\t' || c == '\n' || c == '\r' || c == '\U{00000C}'
  }

  /** A string without leading and trailing blanks. */
  function Trim(s: string): (r: string)
    ensures Trimmed(r)
    ensures Trimmed(s) ==> r == s
  {
    if s != "" && IsSpace(s[0]) then Trim(s[1..])
    else if s != "" && IsSpace(s[|s| - 1]) then Trim(s[..|s| - 1])
    else s
  }

  /** A blank, tab, line feed, form feed or carriage return. */
  predicate Blank(c: char) {
    var code := c as int;
    code == 32 || code == 9 || code == 10 || code == 12 || code == 13
  }

  /** Trimming takes off all leading and trailing blanks and nothing else. */
  lemma {:induction false} TrimIs(s: string) returns (i: nat, j: nat)
    ensures i <= j <= |s| && Trim(s) == s[i..j]
    ensures forall k | 0 <= k < i || j <= k < |s| :: Blank(s[k])
    ensures i < j ==> !Blank(s[i]) && !Blank(s[j - 1])
  {
    i, j := 0, |s|;
    if s != "" && IsSpace(s[0]) {
      var a, b := TrimIs(s[1..]);
      i, j := a + 1, b + 1;
      assert s[1..][a..b] == s[i..j];
      assert forall k | 1 <= k < |s| :: s[k] == s[1..][k - 1];
    } else if s != "" && IsSpace(s[|s| - 1]) {
      i, j := TrimIs(s[..|s| - 1]);
      assert s[..|s| - 1][i..j] == s[i..j];
    }
  }

  lemma {:induction false} TrimPlain(s: string)
    requires Plain(s)
    ensures Plain(Trim(s))
  {
    if s != "" && IsSpace(s[0]) {
      TrimPlain(s[1..]);
    } else if s != "" && IsSpace(s[|s| - 1]) {
      TrimPlain(s[..|s| - 1]);
    }
  }

  predicate Trimmed(s: string) {
    s == "" || (!IsSpace(s[0]) && !IsSpace(s[|s| - 1]))
  }

  predicate Plain(s: string) {
    forall i | 0 <= i < |s| :: s[i] != ';'
  }

  predicate NoSemicolons(parts: seq<string>) {
    parts == [] || (Plain(parts[0]) && NoSemicolons(parts[1..]))
  }

  /** The pieces of `s` between semicolons; never an empty list. */
  function Split(s: string): (parts: seq<string>)
    ensures parts != [] && NoSemicolons(parts)
  {
    if s == "" then [""]
    else if s[0] == ';' then [""] + Split(s[1..])
    else
      var rest := Split(s[1..]);
      [[s[0]] + rest[0]] + rest[1..]
  }

  function Join(parts: seq<string>): string {
    if parts == [] then ""
    else if |parts| == 1 then parts[0]
    else parts[0] + ";" + Join(parts[1..])
  }

  /** A genre name as the merge writes it. */
  predicate IsName(t: string) {
    t != "" && Trimmed(t) && Plain(t)
  }

  predicate AllNames(toks: seq<string>) {
    toks == [] || (IsName(toks[0]) && AllNames(toks[1..]))
  }

  /** The non-blank pieces of a list of pieces, trimmed. */
  function TrimAll(parts: seq<string>): seq<string> {
    if parts == [] then []
    else if Trim(parts[0]) == "" then TrimAll(parts[1..])
    else [Trim(parts[0])] + TrimAll(parts[1..])
  }

  /** The genre names listed in a tag value, in order. */
  function Tokens(s: string): (toks: seq<string>)
    ensures AllNames(toks)
  {
    TrimAllGivesNames(Split(s));
    TrimAll(Split(s))
  }

  lemma {:induction false} TrimAllGivesNames(parts: seq<string>)
    requires NoSemicolons(parts)
    ensures AllNames(TrimAll(parts))
  {
    if parts != [] {
      TrimPlain(parts[0]);
      TrimAllGivesNames(parts[1..]);
    }
  }

  function Keys(lower: string -> string, toks: seq<string>): set<string> {
    if toks == [] then {} else {lower(toks[0])} + Keys(lower, toks[1..])
  }

  /** No two names have the same key. */
  predicate DistinctKeys(lower: string -> string, toks: seq<string>) {
    toks == [] || (lower(toks[0]) !in Keys(lower, toks[1..]) && DistinctKeys(lower, toks[1..]))
  }

  /** First spelling of each name whose key is not in `seen`. */
  function Dedup(lower: string -> string, toks: seq<string>, seen: set<string>): (out: seq<string>)
    ensures DistinctKeys(lower, out)
    ensures Keys(lower, out) == Keys(lower, toks) - seen
  {
    if toks == [] then []
    else
      var k := lower(toks[0]);
      if k in seen then Dedup(lower, toks[1..], seen)
      else [toks[0]] + Dedup(lower, toks[1..], seen + {k})
  }

  /** The merged genre value for a track holding `existing` and offered `incoming`. */
  function Merge(lower: string -> string, existing: Text, incoming: Text): Text {
    if Coalesce(existing) == "" then incoming
    else if Coalesce(incoming) == "" then existing
    else Chars(Join(Dedup(lower, Tokens(existing.chars) + Tokens(incoming.chars), {})))
  }

  /** A value that lists its names exactly as the merge would write them. */
  predicate Canonical(lower: string -> string, s: string) {
    AllNames(Split(s)) && DistinctKeys(lower, Split(s))
  }

  // ---- Splitting undoes joining ----

  lemma {:induction false} SplitPrefix(a: string, rest: string)
    requires Plain(a)
    ensures Split(a + ";" + rest) == [a] + Split(rest)
  {
    if a == "" {
      assert (a + ";" + rest)[1..] == rest;
    } else {
      SplitPrefix(a[1..], rest);
      assert (a + ";" + rest)[1..] == a[1..] + ";" + rest;
      assert [a[0]] + a[1..] == a;
    }
  }

  lemma {:induction false} SplitWhole(a: string)
    requires Plain(a)
    ensures Split(a) == [a]
  {
    if a != "" {
      SplitWhole(a[1..]);
      assert [a[0]] + a[1..] == a;
    }
  }

  lemma {:induction false} SplitJoin(parts: seq<string>)
    requires parts != [] && NoSemicolons(parts)
    ensures Split(Join(parts)) == parts
  {
    if |parts| == 1 {
      SplitWhole(parts[0]);
    } else {
      SplitJoin(parts[1..]);
      SplitPrefix(parts[0], Join(parts[1..]));
    }
  }

  lemma {:induction false} JoinSplit(s: string)
    ensures Join(Split(s)) == s
  {
    if s != "" {
      JoinSplit(s[1..]);
      var rest := Split(s[1..]);
      assert [s[0]] + s[1..] == s;
      if s[0] == ';' {
        assert Split(s)[1..] == rest;
      } else if |rest| > 1 {
        assert Split(s)[1..] == rest[1..];
      }
    }
  }

  lemma {:induction false} NamesAppend(a: seq<string>, b: seq<string>)
    requires AllNames(a) && AllNames(b)
    ensures AllNames(a + b)
  {
    if a == [] {
      assert a + b == b;
    } else {
      NamesAppend(a[1..], b);
      assert (a + b)[1..] == a[1..] + b;
    }
  }

  lemma {:induction false} NamesArePlain(toks: seq<string>)
    requires AllNames(toks)
    ensures NoSemicolons(toks)
  {
    if toks != [] {
      NamesArePlain(toks[1..]);
    }
  }

  lemma {:induction false} TrimAllNames(toks: seq<string>)
    requires AllNames(toks)
    ensures TrimAll(toks) == toks
  {
    if toks != [] {
      TrimAllNames(toks[1..]);
    }
  }

  /** Reading back a joined list of names gives the same names. */
  lemma {:induction false} TokensOfJoin(toks: seq<string>)
    requires AllNames(toks)
    ensures Tokens(Join(toks)) == toks
  {
    if toks != [] {
      NamesArePlain(toks);
      SplitJoin(toks);
      TrimAllNames(toks);
    }
  }

  // ---- Removing duplicates ----

  lemma {:induction false} KeysAppend(lower: string -> string, a: seq<string>, b: seq<string>)
    ensures Keys(lower, a + b) == Keys(lower, a) + Keys(lower, b)
  {
    if a == [] {
      assert a + b == b;
    } else {
      assert (a + b)[1..] == a[1..] + b;
      KeysAppend(lower, a[1..], b);
    }
  }

  lemma {:induction false} DedupAppend(lower: string -> string, a: seq<string>, b: seq<string>, seen: set<string>)
    ensures Dedup(lower, a + b, seen) == Dedup(lower, a, seen) + Dedup(lower, b, seen + Keys(lower, a))
  {
    if a == [] {
      assert a + b == b;
      assert seen + Keys(lower, a) == seen;
    } else {
      var k := lower(a[0]);
      assert (a + b)[1..] == a[1..] + b;
      assert seen + {k} + Keys(lower, a[1..]) == seen + Keys(lower, a);
      if k in seen {
        assert seen + {k} == seen;
      }
      DedupAppend(lower, a[1..], b, seen + {k});
    }
  }

  lemma DedupSnoc(lower: string -> string, toks: seq<string>, t: string)
    ensures Keys(lower, toks + [t]) == Keys(lower, toks) + {lower(t)}
    ensures Dedup(lower, toks + [t], {})
      == if lower(t) in Keys(lower, toks) then Dedup(lower, toks, {}) else Dedup(lower, toks, {}) + [t]
  {
    KeysAppend(lower, toks, [t]);
    DedupAppend(lower, toks, [t], {});
    assert {} + Keys(lower, toks) == Keys(lower, toks);
  }

  lemma {:induction false} DedupKnown(lower: string -> string, toks: seq<string>, seen: set<string>)
    requires Keys(lower, toks) <= seen
    ensures Dedup(lower, toks, seen) == []
  {
    if toks != [] {
      DedupKnown(lower, toks[1..], seen);
    }
  }

  lemma {:induction false} DedupDistinct(lower: string -> string, toks: seq<string>, seen: set<string>)
    requires DistinctKeys(lower, toks) && Keys(lower, toks) !! seen
    ensures Dedup(lower, toks, seen) == toks
  {
    if toks != [] {
      DedupDistinct(lower, toks[1..], seen + {lower(toks[0])});
    }
  }

  lemma {:induction false} DedupGivesNames(lower: string -> string, toks: seq<string>, seen: set<string>)
    requires AllNames(toks)
    ensures AllNames(Dedup(lower, toks, seen))
  {
    if toks != [] {
      var k := lower(toks[0]);
      DedupGivesNames(lower, toks[1..], if k in seen then seen else seen + {k});
    }
  }

  /** Name `k` has a key not seen before it. */
  predicate FirstOfKey(lower: string -> string, toks: seq<string>, seen: set<string>, k: nat) {
    k < |toks| && lower(toks[k]) !in seen && forall i | 0 <= i < k :: lower(toks[i]) != lower(toks[k])
  }

  /** The merged list is the names that are the first of their key, as spelled there and in their order. */
  lemma {:induction false} FirstSpellings(lower: string -> string, toks: seq<string>, seen: set<string>)
    returns (at: seq<nat>)
    ensures var out := Dedup(lower, toks, seen);
            && |at| == |out| && (forall m | 0 <= m < |at| :: at[m] < |toks| && out[m] == toks[at[m]])
            && (forall m, n | 0 <= m < n < |at| :: at[m] < at[n])
            && (forall k: nat :: k in at <==> FirstOfKey(lower, toks, seen, k))
  {
    at := [];
    if toks != [] {
      var k := lower(toks[0]);
      var seen2 := if k in seen then seen else seen + {k};
      var rest := FirstSpellings(lower, toks[1..], seen2);
      var moved: seq<nat> := seq(|rest|, m requires 0 <= m < |rest| => rest[m] + 1);
      FirstMoves(lower, toks, seen, rest, moved);
      at := if k in seen then moved else [0] + moved;
      FirstFront(lower, toks, seen);
      hide FirstOfKey;
      var out := Dedup(lower, toks, seen);
      assert out == if k in seen then Dedup(lower, toks[1..], seen2) else [toks[0]] + Dedup(lower, toks[1..], seen2);
      forall m | 0 <= m < |at| ensures at[m] < |toks| && out[m] == toks[at[m]] {
        var r := if k in seen then m else m - 1;
        if r >= 0 {
          assert at[m] == rest[r] + 1 && toks[1..][rest[r]] == toks[at[m]];
        }
      }
    }
  }

  /** The first name is the first of its key unless that is known. */
  lemma FirstFront(lower: string -> string, toks: seq<string>, seen: set<string>)
    requires toks != []
    ensures FirstOfKey(lower, toks, seen, 0) <==> lower(toks[0]) !in seen
  {
  }

  lemma FirstMoves(lower: string -> string, toks: seq<string>, seen: set<string>, rest: seq<nat>, moved: seq<nat>)
    requires toks != [] && |moved| == |rest| && forall m | 0 <= m < |rest| :: moved[m] == rest[m] + 1
    requires var k := lower(toks[0]);
             forall i: nat :: i in rest <==> FirstOfKey(lower, toks[1..], if k in seen then seen else seen + {k}, i)
    ensures forall i: nat :: i in moved <==> i > 0 && FirstOfKey(lower, toks, seen, i)
  {
    var k := lower(toks[0]);
    var seen2 := if k in seen then seen else seen + {k};
    forall i: nat ensures i in moved <==> i > 0 && FirstOfKey(lower, toks, seen, i) {
      if i in moved {
        var m :| 0 <= m < |moved| && moved[m] == i;
        var x: nat := i - 1;
        assert rest[m] == x && x in rest;
        assert FirstOfKey(lower, toks[1..], seen2, x);
        forall h | 0 <= h < i ensures lower(toks[h]) != lower(toks[i]) {
          assert h > 0 ==> toks[h] == toks[1..][h - 1];
        }
      }
      if i > 0 && FirstOfKey(lower, toks, seen, i) {
        var x: nat := i - 1;
        assert toks[1..][x] == toks[i];
        assert FirstOfKey(lower, toks[1..], seen2, x);
        assert x in rest;
        var m :| 0 <= m < |rest| && rest[m] == x;
        assert moved[m] == i;
      }
    }
  }

  // ---- What a merge keeps, and when it settles ----

  /** A merge of two non-blank values keeps the names of the existing value first, in order and in
      their first spelling, lists no name twice, and lists every name of both values. */
  lemma MergeListsBoth(lower: string -> string, e: string, i: string)
    requires e != "" && i != ""
    ensures var out := Tokens(Coalesce(Merge(lower, Chars(e), Chars(i))));
            && Dedup(lower, Tokens(e), {}) <= out
            && DistinctKeys(lower, out)
            && Keys(lower, out) == Keys(lower, Tokens(e)) + Keys(lower, Tokens(i))
  {
    NamesAppend(Tokens(e), Tokens(i));
    DedupGivesNames(lower, Tokens(e) + Tokens(i), {});
    TokensOfJoin(Dedup(lower, Tokens(e) + Tokens(i), {}));
    DedupAppend(lower, Tokens(e), Tokens(i), {});
    KeysAppend(lower, Tokens(e), Tokens(i));
  }

  /** A blank incoming value changes nothing, and a blank existing one is replaced. */
  lemma BlankMerge(lower: string -> string, e: Text, i: Text)
    ensures Coalesce(e) == "" ==> Merge(lower, e, i) == i
    ensures Coalesce(e) != "" && Coalesce(i) == "" ==> Merge(lower, e, i) == e
  {
  }

  /** The list the merge writes for `existing` and `incoming` is its own merge with `incoming`. */
  lemma DedupAbsorbs(lower: string -> string, e: seq<string>, i: seq<string>)
    ensures var out := Dedup(lower, e + i, {}); Dedup(lower, out + i, {}) == out
  {
    var out := Dedup(lower, e + i, {});
    KeysAppend(lower, e, i);
    DedupAppend(lower, out, i, {});
    DedupDistinct(lower, out, {});
    DedupKnown(lower, i, {} + Keys(lower, out));
  }

  /** Merging a value with itself changes nothing exactly when the value is already canonical. */
  lemma SelfMergeIff(lower: string -> string, i: string)
    requires i != ""
    ensures Merge(lower, Chars(i), Chars(i)) == Chars(i) <==> Canonical(lower, i)
  {
    var toks := Tokens(i);
    var out := Dedup(lower, toks + toks, {});
    DedupAppend(lower, toks, toks, {});
    DedupKnown(lower, toks, {} + Keys(lower, toks));
    assert out == Dedup(lower, toks, {});
    DedupGivesNames(lower, toks, {});
    if Canonical(lower, i) {
      TrimAllNames(Split(i));
      DedupDistinct(lower, Split(i), {});
      JoinSplit(i);
    }
    if Join(out) == i {
      assert out != [];
      NamesArePlain(out);
      SplitJoin(out);
    }
  }

  /** The incoming value is blank; or the track had no genre and the incoming value is canonical; or
      the track had one and some name is listed at all. */
  predicate MergeSettles(lower: string -> string, e: Text, i: Text) {
    || Coalesce(i) == ""
    || (Coalesce(e) == "" && Canonical(lower, Coalesce(i)))
    || (Coalesce(e) != "" && Tokens(Coalesce(e)) + Tokens(Coalesce(i)) != [])
  }

  /** Merging the same incoming value a second time changes nothing exactly when the merge settles. */
  lemma MergeSettlesIff(lower: string -> string, e: Text, i: Text)
    ensures SameText(Merge(lower, Merge(lower, e, i), i), Merge(lower, e, i)) <==> MergeSettles(lower, e, i)
  {
    if Coalesce(i) != "" && Coalesce(e) == "" {
      SelfMergeIff(lower, i.chars);
    } else if Coalesce(i) != "" {
      var both := Tokens(e.chars) + Tokens(i.chars);
      var out := Dedup(lower, both, {});
      NamesAppend(Tokens(e.chars), Tokens(i.chars));
      DedupGivesNames(lower, both, {});
      TokensOfJoin(out);
      DedupAbsorbs(lower, Tokens(e.chars), Tokens(i.chars));
      if both != [] {
        assert lower(both[0]) in Keys(lower, out);
        assert IsName(out[0]) && Join(out) != "";
      }
    }
  }

  /** The value after merging the same incoming value `n` times. */
  function Remerged(lower: string -> string, e: Text, i: Text, n: nat): Text {
    if n == 0 then e else Merge(lower, Remerged(lower, e, i, n - 1), i)
  }

  /** The incoming value is separators only, and the existing one lists no name either. */
  predicate Alternates(e: Text, i: Text) {
    Coalesce(i) != "" && Tokens(Coalesce(i)) == [] && Tokens(Coalesce(e)) == []
  }

  lemma BlankHasNoNames()
    ensures Tokens("") == []
  {
    assert Split("") == [""];
  }

  /** Without any name on either side a merge only swaps the incoming value and the empty one. */
  lemma AlternatingMerge(lower: string -> string, e: Text, i: Text)
    requires Alternates(e, i)
    ensures Merge(lower, e, i) == if Coalesce(e) == "" then i else Chars("")
    ensures !SameText(Merge(lower, e, i), e) && Alternates(Merge(lower, e, i), i)
  {
    BlankHasNoNames();
  }

  /** Such a genre is rewritten by every merge, however many there were. */
  lemma {:induction false} AlternatesForever(lower: string -> string, e: Text, i: Text, n: nat)
    requires Alternates(e, i)
    ensures Alternates(Remerged(lower, e, i, n), i)
    ensures !SameText(Remerged(lower, e, i, n + 1), Remerged(lower, e, i, n))
    ensures n >= 1 ==> SameText(Remerged(lower, e, i, n + 2), Remerged(lower, e, i, n))
  {
    hide Alternates, Merge;
    if n > 0 {
      AlternatesForever(lower, e, i, n - 1);
      AlternatingMerge(lower, Remerged(lower, e, i, n - 1), i);
    }
    var e2 := Remerged(lower, e, i, n);
    AlternatingMerge(lower, e2, i);
    AlternatingMerge(lower, Merge(lower, e2, i), i);
    assert Remerged(lower, e, i, n + 2) == Merge(lower, Merge(lower, e2, i), i);
  }

  /** One merge leaves a value that settles, unless names are missing altogether. */
  lemma SecondMergeSettles(lower: string -> string, e: Text, i: Text)
    requires !Alternates(e, i)
    ensures MergeSettles(lower, Merge(lower, e, i), i) && !Alternates(Merge(lower, e, i), i)
  {
    if Coalesce(i) != "" && Coalesce(e) != "" {
      var both := Tokens(e.chars) + Tokens(i.chars);
      var out := Dedup(lower, both, {});
      NamesAppend(Tokens(e.chars), Tokens(i.chars));
      DedupGivesNames(lower, both, {});
      TokensOfJoin(out);
      if both != [] {
        assert lower(both[0]) in Keys(lower, out);
        assert IsName(out[0]) && Join(out) != "";
      }
    } else {
      BlankHasNoNames();
    }
  }

  /** Merging the same value again and again changes nothing from the third merge on, or it changes the value every
      time; the latter exactly when neither value lists a name and the incoming one is not blank. */
  lemma {:induction false} RemergedSettlesIff(lower: string -> string, e: Text, i: Text, n: nat)
    requires n >= 2
    ensures SameText(Remerged(lower, e, i, n + 1), Remerged(lower, e, i, n)) <==> !Alternates(e, i)
  {
    hide Merge, Alternates, Remerged, MergeSettles;
    if Alternates(e, i) {
      AlternatesForever(lower, e, i, n);
    } else {
      KeepsSettling(lower, e, i, n - 2);
      RemergedStep(lower, e, i, n - 1);
      RemergedStep(lower, e, i, n);
      MergeSettlesIff(lower, Remerged(lower, e, i, n - 1), i);
    }
  }

  lemma RemergedStep(lower: string -> string, e: Text, i: Text, n: nat)
    ensures Remerged(lower, e, i, n + 1) == Merge(lower, Remerged(lower, e, i, n), i)
  {
  }

  lemma {:induction false} KeepsSettling(lower: string -> string, e: Text, i: Text, n: nat)
    requires !Alternates(e, i)
    ensures !Alternates(Remerged(lower, e, i, n), i) && MergeSettles(lower, Remerged(lower, e, i, n + 1), i)
  {
    hide Merge, Alternates, MergeSettles;
    if n > 0 {
      KeepsSettling(lower, e, i, n - 1);
      SecondMergeSettles(lower, Remerged(lower, e, i, n - 1), i);
    }
    SecondMergeSettles(lower, Remerged(lower, e, i, n), i);
  }

  /** The names known after the first `n` pieces of the current input. */
  ghost function Scanned(done: seq<string>, parts: seq<string>, n: nat): seq<string>
    requires n <= |parts|
  {
    done + TrimAll(parts[..n])
  }

  lemma ScanStep(lower: string -> string, done: seq<string>, parts: seq<string>, n: nat)
    requires n < |parts|
    ensures var now, next, t := Scanned(done, parts, n), Scanned(done, parts, n + 1), Trim(parts[n]);
            if t == "" then next == now
            else && Keys(lower, next) == Keys(lower, now) + {lower(t)}
                 && Dedup(lower, next, {})
                    == if lower(t) in Keys(lower, now) then Dedup(lower, now, {}) else Dedup(lower, now, {}) + [t]
  {
    assert parts[..n + 1] == parts[..n] + [parts[n]];
    TrimAllSnoc(parts[..n], parts[n]);
    if Trim(parts[n]) != "" {
      var t := Trim(parts[n]);
      DedupSnoc(lower, Scanned(done, parts, n), t);
      assert Scanned(done, parts, n) + [t] == done + (TrimAll(parts[..n]) + [t]);
    }
  }

  /** One pass: append the names of `input` whose key is not yet in `seen`. */
  method ScanParts(lower: string -> string, input: string, seen: set<string>, out: seq<string>, ghost done: seq<string>)
    returns (seen': set<string>, out': seq<string>)
    requires seen == Keys(lower, done) && out == Dedup(lower, done, {})
    ensures seen' == Keys(lower, done + Tokens(input))
    ensures out' == Dedup(lower, done + Tokens(input), {})
  {
    seen', out' := seen, out;
    var parts := Split(input);
    assert Scanned(done, parts, 0) == done;
    for p := 0 to |parts|
      invariant seen' == Keys(lower, Scanned(done, parts, p))
      invariant out' == Dedup(lower, Scanned(done, parts, p), {})
    {
      ScanStep(lower, done, parts, p);
      var trimmed := Trim(parts[p]);
      if trimmed == "" {
        continue;
      }
      if lower(trimmed) !in seen' {
        seen' := seen' + {lower(trimmed)};
        out' := out' + [trimmed];
      }
    }
    assert parts[..|parts|] == parts;
  }

  lemma {:induction false} TrimAllSnoc(parts: seq<string>, p: string)
    ensures TrimAll(parts + [p]) == if Trim(p) == "" then TrimAll(parts) else TrimAll(parts) + [Trim(p)]
  {
    if parts == [] {
      assert parts + [p] == [p];
    } else {
      assert (parts + [p])[1..] == parts[1..] + [p];
      TrimAllSnoc(parts[1..], p);
    }
  }

  /** The merge as the program runs it: two passes over the split values with one set of seen keys. */
  method MergeGenreStrings(lower: string -> string, existing: Text, incoming: Text) returns (r: Text)
    ensures r == Merge(lower, existing, incoming)
  {
    if Coalesce(existing) == "" {
      return incoming;
    }
    if Coalesce(incoming) == "" {
      return existing;
    }
    var seen: set<string>, out: seq<string> := {}, [];
    seen, out := ScanParts(lower, existing.chars, seen, out, []);
    assert [] + Tokens(existing.chars) == Tokens(existing.chars);
    seen, out := ScanParts(lower, incoming.chars, seen, out, Tokens(existing.chars));
    var result := JoinNames(out);
    return Chars(result);
  }

  method JoinNames(out: seq<string>) returns (result: string)
    ensures result == Join(out)
  {
    result := "";
    for i := 0 to |out|
      invariant result == Join(out[..i])
    {
      JoinSnoc(out[..i], out[i]);
      assert out[..i] + [out[i]] == out[..i + 1];
      if i > 0 {
        result := result + ";";
      }
      result := result + out[i];
    }
    assert out[..|out|] == out;
  }

  lemma {:induction false} JoinSnoc(parts: seq<string>, p: string)
    ensures Join(parts + [p]) == if parts == [] then p else Join(parts) + ";" + p
  {
    if |parts| > 1 {
      JoinSnoc(parts[1..], p);
      assert (parts + [p])[1..] == parts[1..] + [p];
    } else if |parts| == 1 {
      assert (parts + [p])[1..] == [p];
    }
  }
}
