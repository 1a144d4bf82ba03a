/** How a view's name is derived from its class name (`BasePostgresView.name` in
    django_orm_views/views.py), plus the string splitting used to read names back. */
module Names {
  import opened Base

  // ---------------------------------------------------------------------------
  // The two camel-case rewrites
  // ---------------------------------------------------------------------------

  /** One match of a two-group regular expression inside a string: group 1 is
      `s[start..split]` and group 2 is `s[split..end]`. */
  datatype Match = Match(start: nat, split: nat, end: nat)

  /** The matches lie inside `s`, after `from`, in order and without overlapping: what the
      regular-expression engine reports to `re.sub`. */
  predicate MatchesInOrder(s: string, ms: seq<Match>, from: nat)
    decreases |ms|
  {
    if ms == [] then from <= |s|
    else
      && from <= ms[0].start <= ms[0].split <= ms[0].end <= |s|
      && MatchesInOrder(s, ms[1..], ms[0].end)
  }

  /** `re.sub(pattern, r'\1\2', s)` over the given matches: the text between matches is
      kept and every match is replaced by its first group followed by its second. */
  function SubstituteGroups(s: string, ms: seq<Match>, from: nat): string
    requires MatchesInOrder(s, ms, from)
    decreases |ms|
  {
    if ms == [] then s[from..]
    else
      s[from..ms[0].start] + s[ms[0].start..ms[0].split] + s[ms[0].split..ms[0].end]
      + SubstituteGroups(s, ms[1..], ms[0].end)
  }

  /** Both camel-case rewrites of the name derivation replace each match by its own two
      groups, so whatever the regular expressions match they leave the class name unchanged. */
  lemma {:induction false} SubstituteGroupsIsIdentity(s: string, ms: seq<Match>, from: nat)
    requires MatchesInOrder(s, ms, from)
    ensures SubstituteGroups(s, ms, from) == s[from..]
    decreases |ms|
  {
    if ms != [] {
      var m := ms[0];
      SubstituteGroupsIsIdentity(s, ms[1..], m.end);
      assert s[from..m.start] + s[m.start..m.split] + s[m.split..m.end] + s[m.end..] == s[from..];
    }
  }

  // ---------------------------------------------------------------------------
  // Lower-casing and hyphen removal
  // ---------------------------------------------------------------------------

  predicate IsUpper(c: char)
  {
    'A' <= c <= 'Z'
  }

  /** `str.lower()` on one ASCII character. */
  function LowerChar(c: char): char
  {
    if IsUpper(c) then (c as int + 32) as char else c
  }

  function Lower(s: string): string
  {
    if s == [] then [] else [LowerChar(s[0])] + Lower(s[1..])
  }

  /** `word.replace('-', '')`. */
  function RemoveHyphens(s: string): string
  {
    if s == [] then []
    else if s[0] == '-' then RemoveHyphens(s[1..])
    else [s[0]] + RemoveHyphens(s[1..])
  }

  /** The class name after the (identity) camel-case rewrites, hyphen removal and
      lower-casing. A derived word never holds a hyphen or an upper-case ASCII letter. */
  function Word(className: string): (r: string)
    ensures Normalised(r)
  {
    var h := RemoveHyphens(className);
    RemoveHyphensFacts(className);
    LowerFacts(h);
    assert Normalised(Lower(h)) by {
      forall i | 0 <= i < |Lower(h)| ensures Lower(h)[i] != '-' && !IsUpper(Lower(h)[i]) {
        assert h[i] in h;
      }
    }
    Lower(h)
  }

  /** `BasePostgresView.name`: the word, behind `prefix + "_"` when a prefix is set. */
  function ViewName(className: string, prefix: Option<string>): (r: string)
    ensures prefix.None? ==> r == Word(className)
    ensures prefix.Some? ==>
              && |r| == |prefix.value| + 1 + |Word(className)|
              && r[..|prefix.value|] == prefix.value
              && r[|prefix.value|] == '_'
              && r[|prefix.value| + 1..] == Word(className)
  {
    match prefix
    case None => Word(className)
    case Some(p) => p + "_" + Word(className)
  }

  /** A string holding neither a hyphen nor an upper-case ASCII letter. */
  predicate Normalised(s: string)
  {
    forall i :: 0 <= i < |s| ==> s[i] != '-' && !IsUpper(s[i])
  }

  lemma {:induction false} LowerFacts(s: string)
    ensures |Lower(s)| == |s|
    ensures forall i :: 0 <= i < |s| ==> Lower(s)[i] == LowerChar(s[i])
  {
    if s != [] {
      LowerFacts(s[1..]);
      forall i | 1 <= i < |s| ensures Lower(s)[i] == LowerChar(s[i]) {
        assert Lower(s)[i] == Lower(s[1..])[i - 1];
      }
    }
  }

  lemma {:induction false} RemoveHyphensFacts(s: string)
    ensures forall c :: c in RemoveHyphens(s) <==> c in s && c != '-'
    ensures |RemoveHyphens(s)| == |s| - multiset(s)['-']
  {
    if s != [] {
      RemoveHyphensFacts(s[1..]);
      assert s == [s[0]] + s[1..];
      assert multiset(s) == multiset([s[0]]) + multiset(s[1..]);
    }
  }

  /** The word is exactly as long as the class name without its hyphens. */
  lemma WordLength(className: string)
    ensures |Word(className)| == |className| - multiset(className)['-']
  {
    RemoveHyphensFacts(className);
    LowerFacts(RemoveHyphens(className));
  }

  lemma {:induction false} NormalisedIsFixed(s: string)
    requires Normalised(s)
    ensures RemoveHyphens(s) == s && Lower(s) == s
  {
    if s != [] {
      NormalisedIsFixed(s[1..]);
      assert s == [s[0]] + s[1..];
    }
  }

  /** Deriving the word of a word changes nothing: name derivation is idempotent, and a
      class name that is already lower-case and hyphen-free is its own word. */
  lemma WordIdempotent(className: string)
    ensures Word(Word(className)) == Word(className)
    ensures Normalised(className) ==> Word(className) == className
  {
    NormalisedIsFixed(Word(className));
    if Normalised(className) {
      NormalisedIsFixed(className);
    }
  }

  lemma {:induction false} LowerCommutesWithHyphenRemoval(s: string)
    ensures Lower(RemoveHyphens(s)) == RemoveHyphens(Lower(s))
  {
    if s != [] {
      LowerCommutesWithHyphenRemoval(s[1..]);
      assert Lower(s) == [LowerChar(s[0])] + Lower(s[1..]);
      assert Lower(s)[1..] == Lower(s[1..]);
      if s[0] != '-' {
        assert Lower([s[0]] + RemoveHyphens(s[1..])) == [LowerChar(s[0])] + Lower(RemoveHyphens(s[1..]));
      }
    }
  }

  /** Class names that differ only in ASCII case give the same view name, so such views
      collide in the view schema. */
  lemma WordIgnoresCase(a: string, b: string)
    requires Lower(a) == Lower(b)
    ensures Word(a) == Word(b)
  {
    LowerCommutesWithHyphenRemoval(a);
    LowerCommutesWithHyphenRemoval(b);
  }

  lemma {:induction false} LowerAppend(a: string, b: string)
    ensures Lower(a + b) == Lower(a) + Lower(b)
  {
    if a != [] {
      LowerAppend(a[1..], b);
      assert (a + b)[1..] == a[1..] + b;
    } else {
      assert a + b == b;
    }
  }

  lemma {:induction false} RemoveHyphensAppend(a: string, b: string)
    ensures RemoveHyphens(a + b) == RemoveHyphens(a) + RemoveHyphens(b)
  {
    if a != [] {
      RemoveHyphensAppend(a[1..], b);
      assert (a + b)[1..] == a[1..] + b;
    } else {
      assert a + b == b;
    }
  }

  /** The word of a class name is computed piece by piece: the derivation works on each
      character independently of its neighbours. */
  lemma WordAppend(a: string, b: string)
    ensures Word(a + b) == Word(a) + Word(b)
  {
    RemoveHyphensAppend(a, b);
    LowerAppend(RemoveHyphens(a), RemoveHyphens(b));
  }

  // ---------------------------------------------------------------------------
  // Reading names back
  // ---------------------------------------------------------------------------

  /** Splits `s` at the first occurrence of `sep`. */
  function SplitAt(s: string, sep: char): Option<(string, string)>
  {
    if s == [] then None
    else if s[0] == sep then Some(([], s[1..]))
    else match SplitAt(s[1..], sep)
      case None => None
      case Some(parts) => Some(([s[0]] + parts.0, parts.1))
  }

  /** Splitting a joined string at a separator that does not occur in its first part
      recovers both parts. */
  lemma {:induction false} SplitJoined(a: string, sep: char, b: string)
    requires sep !in a
    ensures SplitAt(a + [sep] + b, sep) == Some((a, b))
  {
    if a != [] {
      SplitJoined(a[1..], sep, b);
      assert (a + [sep] + b)[1..] == a[1..] + [sep] + b;
      assert [a[0]] + a[1..] == a;
    } else {
      assert a + [sep] + b == [sep] + b;
    }
  }

  /** With a prefix free of underscores the prefix and the word can be read back from
      the name. */
  lemma PrefixedNameSplits(className: string, p: string)
    requires '_' !in p
    ensures SplitAt(ViewName(className, Some(p)), '_') == Some((p, Word(className)))
  {
    SplitJoined(p, '_', Word(className));
  }
}
