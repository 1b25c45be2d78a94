/**
 * The `render` step of `loadEmailTemplate`: `{{key}}` placeholders are substituted entry by
 * entry, then `{{#if name}}…{{/if}}` blocks are kept or dropped, then the result is trimmed.
 * Reading the template files is not part of this model; the subject and body texts are inputs.
 */
module EmailTemplate {
  import opened Wrappers
  import opened Text

  /** The `variables` record, in `Object.entries` order; `None` stands for null or undefined. */
  type Vars = seq<(string, Option<string>)>

  const OpenTag: string := "{{#if"
  const CloseTag: string := "{{/if}}"

  /**
   * Names that `variables[name]` finds on `Object.prototype` when the record has no own entry
   * for them; each of them is truthy (a function, or the prototype object itself).
   */
  const InheritedNames: set<string> := {
    "constructor", "hasOwnProperty", "isPrototypeOf", "propertyIsEnumerable", "toLocaleString",
    "toString", "valueOf", "__defineGetter__", "__defineSetter__", "__lookupGetter__",
    "__lookupSetter__", "__proto__"}

  /**
   * A key that reads the same once spliced into `new RegExp('{{' + key + '}}')`: word
   * characters only, and not starting with a digit (`{{1}}` would parse as a quantifier).
   */
  predicate IsTemplateKey(k: string) {
    k != [] && AllWordChars(k) && !IsDigit(k[0])
  }

  /** A value that `String.prototype.replace` inserts literally: it has no `$` pattern. */
  predicate IsLiteralValue(v: Option<string>) {
    v.None? || '$' !in v.value
  }

  /** The variable records this model covers: template keys, distinct, with literal values. */
  predicate ValidVars(vars: Vars) {
    && (forall i :: 0 <= i < |vars| ==> IsTemplateKey(vars[i].0) && IsLiteralValue(vars[i].1))
    && (forall i, j :: 0 <= i < j < |vars| ==> vars[i].0 != vars[j].0)
  }

  function Placeholder(key: string): string {
    "{{" + key + "}}"
  }

  /** `value ?? ''`. */
  function ValueText(v: Option<string>): string {
    v.GetOr("")
  }

  // ---------------------------------------------------------------------------
  // Global replacement of a literal pattern
  // ---------------------------------------------------------------------------

  /** `s.replace(/p/g, v)` for a literal pattern `p` and a `$`-free `v`: leftmost, non-overlapping. */
  function ReplaceAll(s: string, p: string, v: string): string
    requires p != []
    decreases |s|
  {
    if |s| < |p| then s
    else if s[..|p|] == p then v + ReplaceAll(s[|p|..], p, v)
    else [s[0]] + ReplaceAll(s[1..], p, v)
  }

  /** `s.split(p)`: the pieces between the leftmost, non-overlapping occurrences of `p`. */
  function Split(s: string, p: string): (pieces: seq<string>)
    requires p != []
    ensures pieces != []
    decreases |s|
  {
    if |s| < |p| then [s]
    else if s[..|p|] == p then [[]] + Split(s[|p|..], p)
    else
      var rest := Split(s[1..], p);
      [[s[0]] + rest[0]] + rest[1..]
  }

  /** `pieces.join(sep)`. */
  function Join(pieces: seq<string>, sep: string): string
  {
    if pieces == [] then []
    else if |pieces| == 1 then pieces[0]
    else pieces[0] + sep + Join(pieces[1..], sep)
  }

  /** Replacing every occurrence is splitting at the occurrences and joining with the value. */
  lemma {:induction false} ReplaceAllIsSplitJoin(s: string, p: string, v: string)
    requires p != []
    ensures ReplaceAll(s, p, v) == Join(Split(s, p), v)
    decreases |s|
  {
    if |s| < |p| {
    } else if s[..|p|] == p {
      ReplaceAllIsSplitJoin(s[|p|..], p, v);
      var rest := Split(s[|p|..], p);
      assert ([[]] + rest)[1..] == rest;
    } else {
      ReplaceAllIsSplitJoin(s[1..], p, v);
      JoinExtendFirst([s[0]], Split(s[1..], p), v);
    }
  }

  /** Extending the first piece extends the joined string by the same prefix. */
  lemma JoinExtendFirst(x: string, pieces: seq<string>, sep: string)
    requires pieces != []
    ensures Join([x + pieces[0]] + pieces[1..], sep) == x + Join(pieces, sep)
  {
    var extended := [x + pieces[0]] + pieces[1..];
    assert extended[1..] == pieces[1..];
    if |pieces| > 1 {
      assert Join(extended, sep) == x + pieces[0] + sep + Join(pieces[1..], sep);
    }
  }

  /** Replacing a pattern by itself changes nothing. */
  lemma {:induction false} ReplaceAllSelf(s: string, p: string)
    requires p != []
    ensures ReplaceAll(s, p, p) == s
    decreases |s|
  {
    if |s| < |p| {
    } else if s[..|p|] == p {
      ReplaceAllSelf(s[|p|..], p);
      assert s == s[..|p|] + s[|p|..];
    } else {
      ReplaceAllSelf(s[1..], p);
      assert s == [s[0]] + s[1..];
    }
  }

  /** Joining the pieces of a split with the pattern gives the string back. */
  lemma SplitJoinRoundTrip(s: string, p: string)
    requires p != []
    ensures Join(Split(s, p), p) == s
  {
    ReplaceAllIsSplitJoin(s, p, p);
    ReplaceAllSelf(s, p);
  }

  /** The first piece of a split is a prefix of the string. */
  lemma {:induction false} SplitFirstIsPrefix(s: string, p: string)
    requires p != []
    ensures |Split(s, p)[0]| <= |s| && Split(s, p)[0] == s[..|Split(s, p)[0]|]
    decreases |s|
  {
    if |s| < |p| {
    } else if s[..|p|] == p {
    } else {
      SplitFirstIsPrefix(s[1..], p);
    }
  }

  /** No piece of a split holds an occurrence of the pattern: every occurrence was cut out. */
  lemma {:induction false} SplitPiecesFree(s: string, p: string)
    requires p != []
    ensures forall k :: 0 <= k < |Split(s, p)| ==> !Contains(Split(s, p)[k], p)
    decreases |s|
  {
    var pieces := Split(s, p);
    if |s| < |p| {
      assert pieces == [s];
      assert forall i :: 0 <= i <= |s| - |p| ==> !OccursAt(s, p, i);
    } else if s[..|p|] == p {
      SplitPiecesFree(s[|p|..], p);
      var rest := Split(s[|p|..], p);
      assert pieces == [[]] + rest;
      forall k | 0 <= k < |pieces|
        ensures !Contains(pieces[k], p)
      {
        if k > 0 {
          assert pieces[k] == rest[k - 1];
        }
      }
    } else {
      SplitPiecesFree(s[1..], p);
      SplitFirstIsPrefix(s[1..], p);
      var rest := Split(s[1..], p);
      var first := [s[0]] + rest[0];
      assert pieces == [first] + rest[1..];
      forall k | 0 <= k < |pieces|
        ensures !Contains(pieces[k], p)
      {
        if k > 0 {
          assert pieces[k] == rest[k];
        } else {
          forall i | 0 <= i <= |first| - |p|
            ensures !OccursAt(first, p, i)
          {
            if i == 0 {
              assert first[..|p|] == s[..|p|];
            } else {
              assert rest[0][i - 1..i - 1 + |p|] == first[i..i + |p|];
              assert !OccursAt(rest[0], p, i - 1);
            }
          }
        }
      }
    }
  }

  /** Without an occurrence of the pattern the string comes back unchanged. */
  lemma {:induction false} ReplaceAllAbsent(s: string, p: string, v: string)
    requires p != [] && !Contains(s, p)
    ensures ReplaceAll(s, p, v) == s
    decreases |s|
  {
    if |s| < |p| {
    } else {
      assert !OccursAt(s, p, 0);
      assert !Contains(s[1..], p) by {
        forall i | 0 <= i <= |s[1..]| - |p|
          ensures !OccursAt(s[1..], p, i)
        {
          assert s[1..][i..i + |p|] == s[i + 1..i + 1 + |p|];
          assert !OccursAt(s, p, i + 1);
        }
      }
      ReplaceAllAbsent(s[1..], p, v);
      assert s == [s[0]] + s[1..];
    }
  }

  // ---------------------------------------------------------------------------
  // Placeholder substitution
  // ---------------------------------------------------------------------------

  /** The `for` loop over `Object.entries(variables)`: each entry replaces its `{{key}}` everywhere. */
  function Substitute(s: string, vars: Vars): string
    decreases |vars|
  {
    if vars == [] then s
    else Substitute(ReplaceAll(s, Placeholder(vars[0].0), ValueText(vars[0].1)), vars[1..])
  }

  /** The own entry of `variables` for `name`: `None` when the record has no such key. */
  function Lookup(vars: Vars, name: string): (r: Option<Option<string>>)
    ensures r.Some? ==> (name, r.value) in vars
    ensures r.None? <==> forall i :: 0 <= i < |vars| ==> vars[i].0 != name
  {
    if vars == [] then None
    else if vars[0].0 == name then Some(vars[0].1)
    else Lookup(vars[1..], name)
  }

  /** `variables[name]` is truthy: a non-empty own string, or a name inherited from `Object.prototype`. */
  predicate Truthy(vars: Vars, name: string) {
    match Lookup(vars, name)
    case Some(v) => v.Some? && v.value != ""
    case None => name in InheritedNames
  }

  /**
   * For a supplied key, the block condition holds exactly when the value is a non-empty string;
   * null, undefined and the empty string all make it false.
   */
  lemma TruthyOwnEntry(vars: Vars, j: nat)
    requires ValidVars(vars) && j < |vars|
    ensures Truthy(vars, vars[j].0) <==> vars[j].1.Some? && vars[j].1.value != ""
  {
    var r := Lookup(vars, vars[j].0);
    assert r.Some?;
    var i :| 0 <= i < |vars| && vars[i] == (vars[j].0, r.value);
    assert i == j;
  }

  /** A name neither supplied nor inherited from `Object.prototype` makes the condition false. */
  lemma UnknownNameFalsy(vars: Vars, name: string)
    requires forall i :: 0 <= i < |vars| ==> vars[i].0 != name
    requires name !in InheritedNames
    ensures !Truthy(vars, name)
  {
  }

  /** A string containing no supplied placeholder goes through substitution unchanged. */
  lemma {:induction false} SubstituteAbsent(s: string, vars: Vars)
    requires forall i :: 0 <= i < |vars| ==> !Contains(s, Placeholder(vars[i].0))
    ensures Substitute(s, vars) == s
    decreases |vars|
  {
    if vars != [] {
      ReplaceAllAbsent(s, Placeholder(vars[0].0), ValueText(vars[0].1));
      assert forall i :: 0 <= i < |vars[1..]| ==> vars[1..][i] == vars[i + 1];
      SubstituteAbsent(s, vars[1..]);
    }
  }

  /** The placeholder of one template key never occurs inside that of another. */
  lemma PlaceholderNotInOther(k: string, k2: string)
    requires IsTemplateKey(k) && IsTemplateKey(k2) && k != k2
    ensures !Contains(Placeholder(k), Placeholder(k2))
  {
    var s := Placeholder(k);
    var p := Placeholder(k2);
    forall i | 0 <= i <= |s| - |p|
      ensures !OccursAt(s, p, i)
    {
      var window := s[i..i + |p|];
      if i >= 2 {
        assert window[0] == k[i - 2];
        assert window[0] != p[0];
      } else if i == 1 {
        assert window[1] == k[0];
        assert window[1] != p[1];
      } else if |k2| < |k| {
        assert window[|k2| + 2] == k[|k2|];
        assert window[|k2| + 2] != p[|k2| + 2];
      } else {
        assert s[2..|s| - 2] == k;
        assert p[2..|p| - 2] == k2;
        assert window == s;
      }
    }
  }

  /** A lone placeholder whose key the record does not supply is left in the text untouched. */
  lemma AbsentKeyUntouched(k: string, vars: Vars)
    requires ValidVars(vars) && IsTemplateKey(k)
    requires forall i :: 0 <= i < |vars| ==> vars[i].0 != k
    ensures Substitute(Placeholder(k), vars) == Placeholder(k)
  {
    forall i | 0 <= i < |vars|
      ensures !Contains(Placeholder(k), Placeholder(vars[i].0))
    {
      PlaceholderNotInOther(k, vars[i].0);
    }
    SubstituteAbsent(Placeholder(k), vars);
  }

  /**
   * A lone placeholder for a supplied key becomes that key's value, the empty string for null
   * or undefined, provided the values themselves hold no `{` to be substituted again.
   */
  lemma {:induction false} SuppliedKeyReplaced(k: string, vars: Vars, j: nat)
    requires ValidVars(vars) && j < |vars| && vars[j].0 == k
    requires forall i :: 0 <= i < |vars| ==> '{' !in ValueText(vars[i].1)
    ensures Substitute(Placeholder(k), vars) == ValueText(vars[j].1)
    decreases |vars|
  {
    var v := ValueText(vars[j].1);
    var tail := vars[1..];
    assert forall i :: 0 <= i < |tail| ==> tail[i] == vars[i + 1];
    assert ValidVars(tail);
    if j == 0 {
      var p := Placeholder(k);
      assert p[..|p|] == p && p[|p|..] == [];
      assert ReplaceAll(p, p, v) == v;
      forall i | 0 <= i < |tail|
        ensures !Contains(v, Placeholder(tail[i].0))
      {
        NoBraceNoPlaceholder(v, tail[i].0);
      }
      SubstituteAbsent(v, tail);
    } else {
      PlaceholderNotInOther(k, vars[0].0);
      ReplaceAllAbsent(Placeholder(k), Placeholder(vars[0].0), ValueText(vars[0].1));
      SuppliedKeyReplaced(k, tail, j - 1);
    }
  }

  /** Text without `{` holds no placeholder. */
  lemma NoBraceNoPlaceholder(v: string, key: string)
    requires '{' !in v
    ensures !Contains(v, Placeholder(key))
  {
    var p := Placeholder(key);
    forall m | 0 <= m <= |v| - |p|
      ensures !OccursAt(v, p, m)
    {
      assert v[m..m + |p|][0] == v[m];
    }
  }

  // ---------------------------------------------------------------------------
  // Conditional blocks
  // ---------------------------------------------------------------------------

  /** The length of the run of white space starting at index `i`: a greedy `\s*`. */
  function SpaceRun(s: string, i: nat): (n: nat)
    requires i <= |s|
    ensures i + n <= |s|
    decreases |s| - i
  {
    if i < |s| && IsJsSpace(s[i]) then 1 + SpaceRun(s, i + 1) else 0
  }

  /** The length of the run of word characters starting at index `i`: a greedy `\w*`. */
  function WordRun(s: string, i: nat): (n: nat)
    requires i <= |s|
    ensures i + n <= |s|
    decreases |s| - i
  {
    if i < |s| && IsWordChar(s[i]) then 1 + WordRun(s, i + 1) else 0
  }

  /** The first occurrence of `p` at or after index `i` (what a lazy `[\s\S]*?p` stops at). */
  function FindFrom(s: string, p: string, i: nat): (k: Option<nat>)
    requires p != []
    ensures k.Some? ==> i <= k.value && k.value + |p| <= |s|
    decreases |s| - i
  {
    if i + |p| > |s| then None
    else if OccursAt(s, p, i) then Some(i)
    else FindFrom(s, p, i + 1)
  }

  /** `FindFrom` finds an occurrence, and no earlier one; when it finds none there is none. */
  lemma {:induction false} FindFromFirst(s: string, p: string, i: nat)
    requires p != []
    ensures FindFrom(s, p, i).Some? ==> OccursAt(s, p, FindFrom(s, p, i).value)
    ensures forall j :: i <= j && (FindFrom(s, p, i).None? || j < FindFrom(s, p, i).value) ==> !OccursAt(s, p, j)
    decreases |s| - i
  {
    if i + |p| <= |s| && !OccursAt(s, p, i) {
      FindFromFirst(s, p, i + 1);
    }
  }

  /** Conversely, the first occurrence at or after `i` is the one `FindFrom` finds. */
  lemma {:induction false} FindFromIs(s: string, p: string, i: nat, e: nat)
    requires p != [] && i <= e && OccursAt(s, p, e)
    requires forall j :: i <= j < e ==> !OccursAt(s, p, j)
    ensures FindFrom(s, p, i) == Some(e)
    decreases e - i
  {
    if i < e {
      FindFromIs(s, p, i + 1, e);
    }
  }

  /** One match of the block pattern: the variable name, the body, and where the match ends. */
  datatype Block = Block(name: string, body: string, end: nat)

  /** The match of `/{{#if\s+(\w+)}}([\s\S]*?){{\/if}}/` starting at index 0 of `s`, if there is one. */
  function MatchBlock(s: string): (m: Option<Block>)
    ensures m.Some? ==> 0 < m.value.end <= |s|
  {
    if !StartsWith(s, OpenTag) then None else MatchBlockAfter(s, |OpenTag|)
  }

  /** The rest of the block pattern, from index `o` just after `{{#if`. */
  function MatchBlockAfter(s: string, o: nat): (m: Option<Block>)
    requires o <= |s|
    ensures m.Some? ==> o < m.value.end <= |s|
  {
    var w := SpaceRun(s, o);
    MatchAfterRuns(s, o, w, WordRun(s, o + w))
  }

  /** The pattern after its white-space run of length `w` and its name run of length `n`: `}}`, then the body up to the first `{{/if}}`. */
  function MatchAfterRuns(s: string, o: nat, w: nat, n: nat): (m: Option<Block>)
    requires o + w + n <= |s|
    ensures m.Some? ==> o < m.value.end <= |s|
  {
    var c := o + w + n;
    if w == 0 || n == 0 || c + 2 > |s| || s[c] != '}' || s[c + 1] != '}' then None
    else
      var close := FindFrom(s, CloseTag, c + 2);
      if close.None? then None else Some(Block(s[o + w..c], s[c + 2..close.value], close.value + 7))
  }

  /**
   * The global replace of the block pattern: scanning left to right, each match is replaced by
   * its body when its variable is truthy and by nothing otherwise; other text is kept.
   */
  function ProcessBlocks(s: string, vars: Vars): string
    decreases |s|
  {
    if s == [] then []
    else match MatchBlock(s)
      case Some(b) => (if Truthy(vars, b.name) then b.body else []) + ProcessBlocks(s[b.end..], vars)
      case None => [s[0]] + ProcessBlocks(s[1..], vars)
  }

  /** Text without an opening `{{#if` has no block to process. */
  lemma {:induction false} NoBlocksUnchanged(s: string, vars: Vars)
    requires !Contains(s, OpenTag)
    ensures ProcessBlocks(s, vars) == s
    decreases |s|
  {
    if s != [] {
      assert !OccursAt(s, OpenTag, 0);
      assert !Contains(s[1..], OpenTag) by {
        forall i | 0 <= i <= |s[1..]| - |OpenTag|
          ensures !OccursAt(s[1..], OpenTag, i)
        {
          assert s[1..][i..i + |OpenTag|] == s[i + 1..i + 1 + |OpenTag|];
          assert !OccursAt(s, OpenTag, i + 1);
        }
      }
      NoBlocksUnchanged(s[1..], vars);
      assert s == [s[0]] + s[1..];
    }
  }

  /** `SpaceRun` is greedy: every character it covers is white space, and the next one is not. */
  lemma {:induction false} SpaceRunMaximal(s: string, i: nat)
    requires i <= |s|
    ensures forall k :: i <= k < i + SpaceRun(s, i) ==> IsJsSpace(s[k])
    ensures i + SpaceRun(s, i) < |s| ==> !IsJsSpace(s[i + SpaceRun(s, i)])
    decreases |s| - i
  {
    if i < |s| && IsJsSpace(s[i]) {
      SpaceRunMaximal(s, i + 1);
    }
  }

  /** `WordRun` is greedy: every character it covers is a word character, and the next one is not. */
  lemma {:induction false} WordRunMaximal(s: string, i: nat)
    requires i <= |s|
    ensures forall k :: i <= k < i + WordRun(s, i) ==> IsWordChar(s[k])
    ensures i + WordRun(s, i) < |s| ==> !IsWordChar(s[i + WordRun(s, i)])
    decreases |s| - i
  {
    if i < |s| && IsWordChar(s[i]) {
      WordRunMaximal(s, i + 1);
    }
  }

  /** Every character of `t` is white space. */
  predicate AllJsSpace(t: string) {
    forall k :: 0 <= k < |t| ==> IsJsSpace(t[k])
  }

  /** A maximal run of white space has the length `SpaceRun` reports. */
  lemma {:induction false} SpaceRunIs(s: string, i: nat, n: nat)
    requires i + n <= |s| && AllJsSpace(s[i..i + n])
    requires i + n < |s| ==> !IsJsSpace(s[i + n])
    ensures SpaceRun(s, i) == n
    decreases n
  {
    if n > 0 {
      assert IsJsSpace(s[i..i + n][0]);
      assert s[i + 1..i + n] == s[i..i + n][1..];
      SpaceRunIs(s, i + 1, n - 1);
    }
  }

  /** A maximal run of word characters has the length `WordRun` reports. */
  lemma {:induction false} WordRunIs(s: string, i: nat, n: nat)
    requires i + n <= |s| && AllWordChars(s[i..i + n])
    requires i + n < |s| ==> !IsWordChar(s[i + n])
    ensures WordRun(s, i) == n
    decreases n
  {
    if n > 0 {
      assert IsWordChar(s[i..i + n][0]);
      assert s[i + 1..i + n] == s[i..i + n][1..];
      WordRunIs(s, i + 1, n - 1);
    }
  }

  /** `{{/if}}` cannot overlap itself, so after a body free of it the first closing tag is the one that follows. */
  lemma FirstClose(t: string, body: string, i: nat)
    requires i + |body| + |CloseTag| <= |t|
    requires t[i..i + |body|] == body && OccursAt(t, CloseTag, i + |body|)
    requires !Contains(body, CloseTag)
    ensures FindFrom(t, CloseTag, i) == Some(i + |body|)
  {
    var e := i + |body|;
    assert t[e] == '{' && t[e + 1] == '{';
    forall j | i <= j < e
      ensures !OccursAt(t, CloseTag, j)
    {
      if j + 7 <= e {
        InnerSlice(t, body, i, j - i, 7);
        assert !OccursAt(body, CloseTag, j - i);
      } else if j + 1 == e {
        assert t[j..j + 7][2] == t[e + 1];
        assert CloseTag[2] == '/';
      } else {
        var m := e - j;
        assert t[j..j + 7][m] == t[e];
        assert CloseTag[m] != '{';
      }
    }
    FindFromIs(t, CloseTag, i, e);
  }

  lemma InnerSlice(t: string, body: string, i: nat, a: nat, len: nat)
    requires i + |body| <= |t| && t[i..i + |body|] == body && a + len <= |body|
    ensures body[a..a + len] == t[i + a..i + a + len]
  {
    forall k | a <= k < a + len
      ensures body[k] == t[i + k]
    {
      assert body[k] == t[i..i + |body|][k];
    }
  }

  /** No word character is white space. */
  lemma WordNotSpace(c: char)
    requires IsWordChar(c)
    ensures !IsJsSpace(c)
  {
  }

  /** Where the scan of a block whose pieces sit at these offsets stops: the two runs and the closing tag. */
  lemma BlockRuns(s: string, a: nat, c: nat, body: string)
    requires BlockAt(s, a, c, body) && !Contains(body, CloseTag)
    ensures SpaceRun(s, 5) == a - 5 && WordRun(s, a) == c - a
    ensures FindFrom(s, CloseTag, c + 2) == Some(c + 2 + |body|)
  {
    FirstClose(s, body, c + 2);
    SpaceRunBefore(s, 5, a);
    WordRunBefore(s, a, c);
  }

  /** A run of white space followed by a word character. */
  lemma SpaceRunBefore(s: string, i: nat, a: nat)
    requires i <= a < |s| && AllJsSpace(s[i..a]) && IsWordChar(s[a])
    ensures SpaceRun(s, i) == a - i
  {
    WordNotSpace(s[a]);
    SpaceRunIs(s, i, a - i);
  }

  /** A run of word characters followed by `}`. */
  lemma WordRunBefore(s: string, a: nat, c: nat)
    requires a <= c < |s| && AllWordChars(s[a..c]) && s[c] == '}'
    ensures WordRun(s, a) == c - a
  {
    WordRunIs(s, a, c - a);
  }

  /** `MatchBlockAfter` once the lengths of its two runs and its closing tag are known. */
  lemma MatchBlockFrom(s: string, o: nat, w: nat, n: nat, e: nat)
    requires o + w <= |s|
    requires 0 < w && SpaceRun(s, o) == w && 0 < n && WordRun(s, o + w) == n
    requires o + w + n + 2 <= |s| && s[o + w + n] == '}' && s[o + w + n + 1] == '}'
    requires FindFrom(s, CloseTag, o + w + n + 2) == Some(e)
    ensures MatchBlockAfter(s, o) == Some(Block(s[o + w..o + w + n], s[o + w + n + 2..e], e + 7))
  {
    MatchAfterRunsFrom(s, o, w, n, e);
    AfterRuns(s, o, w, n);
  }

  /** `MatchBlockAfter` goes on with the lengths of its two runs. */
  lemma AfterRuns(s: string, o: nat, w: nat, n: nat)
    requires o + w <= |s| && SpaceRun(s, o) == w && WordRun(s, o + w) == n
    ensures o + w + n <= |s| && MatchBlockAfter(s, o) == MatchAfterRuns(s, o, w, n)
  {
  }

  /** `MatchAfterRuns` once its closing tag is known. */
  lemma MatchAfterRunsFrom(s: string, o: nat, w: nat, n: nat, e: nat)
    requires 0 < w && 0 < n && o + w + n + 2 <= |s| && s[o + w + n] == '}' && s[o + w + n + 1] == '}'
    requires FindFrom(s, CloseTag, o + w + n + 2) == Some(e)
    ensures MatchAfterRuns(s, o, w, n) == Some(Block(s[o + w..o + w + n], s[o + w + n + 2..e], e + 7))
  {
  }

  /**
   * A block `{{#if name}}body{{/if}}` at the front, whose body holds no `{{/if}}`, is replaced by
   * its body when `name` is truthy and vanishes otherwise; processing resumes right after its
   * first closing tag, so a later `{{/if}}` in `rest` stays outside it (the match is not greedy).
   */
  lemma BlockRendered(space: string, name: string, body: string, rest: string, vars: Vars)
    requires space != [] && AllJsSpace(space)
    requires name != [] && AllWordChars(name)
    requires !Contains(body, CloseTag)
    ensures ProcessBlocks(OpenTag + space + name + "}}" + body + CloseTag + rest, vars)
      == (if Truthy(vars, name) then body else []) + ProcessBlocks(rest, vars)
  {
    var s := OpenTag + space + name + "}}" + body + CloseTag + rest;
    var a := 5 + |space|;
    var c := a + |name|;
    var e := c + 2 + |body|;
    BlockLayout(space, name, body, rest);
    BlockMatchedAt(s, a, c, body);
    ProcessBlocksStep(s, Block(name, body, e + 7), vars);
  }

  predicate BlockAt(s: string, a: nat, c: nat, body: string) {
    && 5 < a < c && c + 2 + |body| + 7 <= |s|
    && StartsWith(s, OpenTag) && AllJsSpace(s[5..a]) && AllWordChars(s[a..c]) && IsWordChar(s[a])
    && s[c] == '}' && s[c + 1] == '}'
    && s[c + 2..c + 2 + |body|] == body
    && OccursAt(s, CloseTag, c + 2 + |body|)
  }

  /** The block pattern matches a block whose pieces sit at the given offsets of `s`. */
  lemma BlockMatchedAt(s: string, a: nat, c: nat, body: string)
    requires BlockAt(s, a, c, body) && !Contains(body, CloseTag)
    ensures MatchBlock(s) == Some(Block(s[a..c], body, c + 2 + |body| + 7))
  {
    BlockRuns(s, a, c, body);
    MatchBlockIs(s, a, c, c + 2 + |body|);
  }

  /** `MatchBlock` once its two runs and its closing tag are known. */
  lemma MatchBlockIs(s: string, a: nat, c: nat, e: nat)
    requires 5 < a < c && c + 2 <= e && e + 7 <= |s| && StartsWith(s, OpenTag)
    requires SpaceRun(s, 5) == a - 5 && WordRun(s, a) == c - a
    requires s[c] == '}' && s[c + 1] == '}' && FindFrom(s, CloseTag, c + 2) == Some(e)
    ensures MatchBlock(s) == Some(Block(s[a..c], s[c + 2..e], e + 7))
  {
    MatchBlockFrom(s, 5, a - 5, c - a, e);
  }

  /** Where the pieces of a block written out in full sit. */
  lemma BlockLayout(space: string, name: string, body: string, rest: string)
    requires space != [] && AllJsSpace(space)
    requires name != [] && AllWordChars(name)
    ensures var s := OpenTag + space + name + "}}" + body + CloseTag + rest;
      var a := 5 + |space|;
      var c := a + |name|;
      var e := c + 2 + |body|;
      BlockAt(s, a, c, body) && s[a..c] == name && s[e + 7..] == rest
  {
    var h1 := OpenTag + space;
    var h2 := h1 + name;
    var h3 := h2 + "}}";
    var h4 := h3 + body;
    var h5 := h4 + CloseTag;
    var s := h5 + rest;
    assert s[..|h5|] == h5;
    assert h5[..|h4|] == h4 && h4[..|h3|] == h3 && h3[..|h2|] == h2 && h2[..|h1|] == h1;
    assert s[..5] == OpenTag;
    assert s[5..|h1|] == space;
    assert s[|h1|..|h2|] == name;
    assert s[|h2|..|h3|] == "}}";
    assert s[|h3|..|h4|] == body;
    assert s[|h4|..|h5|] == CloseTag;
    assert s[|h5|..] == rest;
  }

  /** One step of the scan: a block matched at the front is replaced and the scan goes on after it. */
  lemma ProcessBlocksStep(s: string, b: Block, vars: Vars)
    requires MatchBlock(s) == Some(b)
    ensures ProcessBlocks(s, vars) == (if Truthy(vars, b.name) then b.body else []) + ProcessBlocks(s[b.end..], vars)
  {
  }

  // ---------------------------------------------------------------------------
  // render
  // ---------------------------------------------------------------------------

  /** What `render(content)` returns: substitution, then blocks, then `trim()`. */
  function Rendered(content: string, vars: Vars): string {
    JsTrim(ProcessBlocks(Substitute(content, vars), vars))
  }

  /** The rendered text never starts or ends with white space, and re-trimming it changes nothing. */
  lemma RenderedIsTrimmed(content: string, vars: Vars)
    ensures var r := Rendered(content, vars);
      (r != [] ==> !IsJsSpace(r[0]) && !IsJsSpace(r[|r| - 1])) && JsTrim(r) == r
  {
    StripIsStrip(ProcessBlocks(Substitute(content, vars), vars), IsJsSpace);
    StripIdempotent(ProcessBlocks(Substitute(content, vars), vars), IsJsSpace);
  }

  /** `render`: the loop over the entries, the block replace and the trim. */
  method Render(content: string, vars: Vars) returns (rendered: string)
    requires ValidVars(vars)
    ensures rendered == Rendered(content, vars)
  {
    rendered := content;
    for i := 0 to |vars|
      invariant Substitute(rendered, vars[i..]) == Substitute(content, vars)
    {
      var (key, value) := vars[i];
      assert vars[i..][1..] == vars[i + 1..];
      rendered := ReplaceAll(rendered, Placeholder(key), value.GetOr(""));
    }
    rendered := ProcessBlocks(rendered, vars);
    rendered := JsTrim(rendered);
  }

  /** `loadEmailTemplate` once the two files are read: subject and body rendered with the same record. */
  method LoadEmailTemplate(subjectText: string, bodyText: string, vars: Vars) returns (subject: string, body: string)
    requires ValidVars(vars)
    ensures subject == Rendered(subjectText, vars) && body == Rendered(bodyText, vars)
  {
    subject := Render(subjectText, vars);
    body := Render(bodyText, vars);
  }
}
