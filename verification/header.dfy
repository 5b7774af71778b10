/**
  Normalisation of the CSV header (app.py line 14): each column name is
  stripped of surrounding whitespace with Python's `str.strip()`, and then
  every double-quote character is removed from it.
 */
module Header {

  /** The characters Python's `str.isspace()` accepts, which `str.strip()` removes. */
  predicate IsSpace(c: char) {
    || c == ' '
    || '\t' <= c <= '\r'
    || '\U{1c}' <= c <= '\U{1f}'
    || c == '\U{85}' || c == '\U{a0}' || c == '\U{1680}'
    || '\U{2000}' <= c <= '\U{200a}'
    || c == '\U{2028}' || c == '\U{2029}' || c == '\U{202f}' || c == '\U{205f}' || c == '\U{3000}'
  }

  /** s without its leading whitespace. */
  function StripLeading(s: string): (r: string)
    ensures |r| <= |s| && r == s[|s| - |r|..]
    ensures forall i :: 0 <= i < |s| - |r| ==> IsSpace(s[i])
    ensures r == [] || !IsSpace(r[0])
  {
    if s != [] && IsSpace(s[0]) then StripLeading(s[1..]) else s
  }

  /** s without its trailing whitespace. */
  function StripTrailing(s: string): (r: string)
    ensures |r| <= |s| && r == s[..|r|]
    ensures forall i :: |r| <= i < |s| ==> IsSpace(s[i])
    ensures r == [] || !IsSpace(r[|r| - 1])
  {
    if s != [] && IsSpace(s[|s| - 1]) then StripTrailing(s[..|s| - 1]) else s
  }

  /** Python's `s.strip()`: s without whitespace at either end. */
  function Strip(s: string): (r: string)
    ensures |r| <= |s|
    ensures r == [] || (!IsSpace(r[0]) && !IsSpace(r[|r| - 1]))
    ensures forall c :: c in r ==> c in s
  {
    StripTrailing(StripLeading(s))
  }

  /** Python's `s.replace('"', '')`: s with every double quote removed. */
  function RemoveQuotes(s: string): (r: string)
    ensures '"' !in r
    ensures |r| <= |s|
  {
    if s == [] then [] else (if s[0] == '"' then [] else [s[0]]) + RemoveQuotes(s[1..])
  }

  /** Quote removal drops the quotes and nothing else: every other character stays as often as it was. */
  lemma {:induction false} RemoveQuotesKeepsOthers(s: string)
    ensures multiset(RemoveQuotes(s)) == multiset(s)['"' := 0]
  {
    if s != [] {
      RemoveQuotesKeepsOthers(s[1..]);
      assert s == [s[0]] + s[1..];
    }
  }

  /** One column name as line 14 normalises it. */
  function NormaliseName(s: string): (r: string)
    ensures '"' !in r
    ensures |r| <= |s|
  {
    RemoveQuotes(Strip(s))
  }

  /** The whole header, name by name and in order. */
  function NormaliseHeader(header: seq<string>): (r: seq<string>)
    ensures |r| == |header|
    ensures forall i :: 0 <= i < |r| ==> r[i] == NormaliseName(header[i])
    ensures forall i :: 0 <= i < |r| ==> '"' !in r[i]
  {
    if header == [] then []
    else
      assert forall i :: 1 <= i < |header| ==> header[i] == header[1..][i - 1];
      [NormaliseName(header[0])] + NormaliseHeader(header[1..])
  }

  /** Normalisation works name by name, so it distributes over concatenation of headers. */
  lemma {:induction false} NormaliseHeaderAppend(a: seq<string>, b: seq<string>)
    ensures NormaliseHeader(a + b) == NormaliseHeader(a) + NormaliseHeader(b)
  {
    if a == [] {
      assert a + b == b;
    } else {
      assert (a + b)[0] == a[0] && (a + b)[1..] == a[1..] + b;
      NormaliseHeaderAppend(a[1..], b);
    }
  }

  /**
    Strip keeps exactly the part of s between a whitespace-only prefix and a
    whitespace-only suffix that neither starts nor ends with whitespace; when s
    is all whitespace, nothing.
   */
  lemma {:induction false} StripCharacterised(s: string, i: nat, j: nat)
    requires i <= j <= |s|
    requires forall k :: 0 <= k < i ==> IsSpace(s[k])
    requires forall k :: j <= k < |s| ==> IsSpace(s[k])
    requires i == j || (!IsSpace(s[i]) && !IsSpace(s[j - 1]))
    ensures Strip(s) == if i == j then [] else s[i..j]
  {
    if i == j {
      LeadingStopsAt(s, |s|);
      assert s[|s|..] == [];
    } else {
      LeadingStopsAt(s, i);
      var lead := s[i..];
      forall k | j - i <= k < |lead| ensures IsSpace(lead[k]) {
        assert lead[k] == s[k + i];
      }
      assert lead[j - i - 1] == s[j - 1];
      TrailingStopsAt(lead, j - i);
      SliceOfSuffix(s, i, j);
    }
  }

  lemma SliceOfSuffix(s: string, i: nat, j: nat)
    requires i <= j <= |s|
    ensures s[i..][..j - i] == s[i..j]
  {
  }

  /** The left strip stops at the first position that is not whitespace. */
  lemma {:induction false} LeadingStopsAt(s: string, i: nat)
    requires i <= |s|
    requires forall k :: 0 <= k < i ==> IsSpace(s[k])
    requires i == |s| || !IsSpace(s[i])
    ensures StripLeading(s) == s[i..]
  {
    if i > 0 {
      assert IsSpace(s[0]);
      assert forall k :: 0 <= k < i - 1 ==> s[1..][k] == s[k + 1];
      LeadingStopsAt(s[1..], i - 1);
      assert s[1..][i - 1..] == s[i..];
    } else {
      assert s[0..] == s;
    }
  }

  /** The right strip stops after the last position that is not whitespace. */
  lemma {:induction false} TrailingStopsAt(s: string, j: nat)
    requires j <= |s|
    requires forall k :: j <= k < |s| ==> IsSpace(s[k])
    requires j == 0 || !IsSpace(s[j - 1])
    ensures StripTrailing(s) == s[..j]
  {
    if j < |s| {
      assert IsSpace(s[|s| - 1]);
      var front := s[..|s| - 1];
      assert forall k :: j <= k < |front| ==> front[k] == s[k];
      TrailingStopsAt(front, j);
      assert front[..j] == s[..j];
    } else {
      assert s[..|s|] == s;
    }
  }

  /** Quote removal works piece by piece. */
  lemma {:induction false} RemoveQuotesAppend(a: string, b: string)
    ensures RemoveQuotes(a + b) == RemoveQuotes(a) + RemoveQuotes(b)
  {
    if a != [] {
      assert (a + b)[0] == a[0] && (a + b)[1..] == a[1..] + b;
      RemoveQuotesAppend(a[1..], b);
    } else {
      assert a + b == b;
    }
  }

  /** Removing quotes leaves a name without quotes unchanged. */
  lemma {:induction false} RemoveQuotesKeepsUnquoted(s: string)
    requires '"' !in s
    ensures RemoveQuotes(s) == s
  {
    if s != [] {
      assert '"' !in s[1..];
      RemoveQuotesKeepsUnquoted(s[1..]);
      assert s == [s[0]] + s[1..];
    }
  }

  /** Quotes around a quote-free name just disappear. */
  lemma {:induction false} RemoveQuotesAround(inner: string)
    requires '"' !in inner
    ensures RemoveQuotes(['"'] + (inner + ['"'])) == inner
  {
    RemoveQuotesAppend(['"'], inner + ['"']);
    RemoveQuotesAppend(inner, ['"']);
    RemoveQuotesKeepsUnquoted(inner);
    assert RemoveQuotes(['"']) == [];
  }

  /**
    Whitespace that quote removal brings to an end of a name stays there: the
    strip runs before the quotes go, so `"\" Wind\""` becomes `" Wind"`, and a
    second normalisation would give `"Wind"`.
   */
  lemma {:induction false} ExposedSpaceKept(name: string)
    requires name != [] && '"' !in name
    requires !IsSpace(name[0]) && !IsSpace(name[|name| - 1])
    ensures NormaliseName(['"', ' '] + name + ['"']) == [' '] + name
    ensures NormaliseName([' '] + name) == name
  {
    var spaced := [' '] + name;
    var quoted := ['"'] + (spaced + ['"']);
    assert quoted == ['"', ' '] + name + ['"'];
    assert quoted[0..|quoted|] == quoted;
    StripCharacterised(quoted, 0, |quoted|);
    RemoveQuotesAround(spaced);
    assert spaced[1..|spaced|] == name;
    StripCharacterised(spaced, 1, |spaced|);
    RemoveQuotesKeepsUnquoted(name);
  }

  /**
    A name in quotes normalises to the bare name. A file whose header carries
    both ends up with the same column name twice, although the two names
    differed when the file was read.
   */
  lemma QuotedNameCollides(name: string)
    requires '"' !in name
    ensures NormaliseName(['"'] + (name + ['"'])) == name
    ensures name == [] || (!IsSpace(name[0]) && !IsSpace(name[|name| - 1])) ==> NormaliseName(name) == name
  {
    var quoted := ['"'] + (name + ['"']);
    assert quoted[0..|quoted|] == quoted;
    StripCharacterised(quoted, 0, |quoted|);
    RemoveQuotesAround(name);
    if name == [] || (!IsSpace(name[0]) && !IsSpace(name[|name| - 1])) {
      NormalisedNameFixed(name);
    }
  }

  /** A name already free of quotes and of whitespace at its ends is its own normal form. */
  lemma NormalisedNameFixed(s: string)
    requires '"' !in s
    requires s == [] || (!IsSpace(s[0]) && !IsSpace(s[|s| - 1]))
    ensures NormaliseName(s) == s
  {
    assert s[0..|s|] == s;
    StripCharacterised(s, 0, |s|);
    RemoveQuotesKeepsUnquoted(s);
  }
}
