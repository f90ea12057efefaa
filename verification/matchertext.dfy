/** Matcher text, `key=value key=value ...`: printed from a query string to
    prefill the mute form, and parsed back when the form is submitted. */
module MatcherText {
  import opened Common

  // --- strings.Fields -----------------------------------------------------

  predicate Spaceless(s: string)
  {
    forall i | 0 <= i < |s| :: !IsSpace(s[i])
  }

  /** The length of the stretch without whitespace that begins `s`. */
  function TokenLength(s: string): (n: nat)
    ensures n <= |s| && Spaceless(s[..n]) && (n < |s| ==> IsSpace(s[n]))
  {
    if s == "" || IsSpace(s[0]) then 0 else 1 + TokenLength(s[1..])
  }

  function Fields(s: string): seq<string>
    decreases |s|
  {
    if s == "" then []
    else if IsSpace(s[0]) then Fields(s[1..])
    else [s[..TokenLength(s)]] + Fields(s[TokenLength(s)..])
  }

  lemma FieldsOfToken(s: string)
    requires s != "" && Spaceless(s)
    ensures Fields(s) == [s]
  {
    var n := TokenLength(s);
    assert n == |s|;
    assert s[..n] == s && s[n..] == "";
  }

  /** Whitespace separates. With `FieldsOfToken` this determines `Fields`. */
  lemma {:induction false} FieldsSplit(a: string, space: char, b: string)
    requires IsSpace(space)
    ensures Fields(a + [space] + b) == Fields(a) + Fields(b)
    decreases |a|
  {
    var s := a + [space] + b;
    if a == "" {
      assert s[1..] == b;
    } else if IsSpace(a[0]) {
      assert s[1..] == a[1..] + [space] + b;
      FieldsSplit(a[1..], space, b);
    } else {
      var n := TokenLength(a);
      TokenLengthUnaffected(a, space, b);
      assert s[..n] == a[..n] && s[n..] == a[n..] + [space] + b;
      FieldsSplit(a[n..], space, b);
    }
  }

  lemma {:induction false} TokenLengthUnaffected(a: string, space: char, b: string)
    requires IsSpace(space)
    ensures TokenLength(a + [space] + b) == TokenLength(a)
  {
    if a != "" && !IsSpace(a[0]) {
      TokenLengthUnaffected(a[1..], space, b);
      assert (a + [space] + b)[1..] == a[1..] + [space] + b;
    }
  }

  lemma {:induction false} FieldsAreTokens(s: string)
    ensures forall t :: t in Fields(s) ==> t != "" && Spaceless(t)
    ensures Fields(s) == [] <==> Blank(s)
    decreases |s|
  {
    if s == "" {
    } else if IsSpace(s[0]) {
      FieldsAreTokens(s[1..]);
      assert forall i :: 0 < i < |s| ==> s[i] == s[1..][i - 1];
    } else {
      FieldsAreTokens(s[TokenLength(s)..]);
    }
  }

  // --- Parsing ------------------------------------------------------------

  datatype ParseError = EmptyText | InvalidMatcher(token: string)

  datatype Result = Ok(matchers: Labels) | Err(error: ParseError)

  /** `strings.IndexByte(tok, '=')`. */
  function IndexOfEquals(token: string): (i: int)
    ensures -1 <= i < |token|
    ensures i >= 0 ==> token[i] == '=' && forall k :: 0 <= k < i ==> token[k] != '='
    ensures i == -1 ==> forall k :: 0 <= k < |token| ==> token[k] != '='
  {
    if token == "" then -1
    else if token[0] == '=' then 0
    else
      var later := IndexOfEquals(token[1..]);
      assert forall k :: 0 < k < |token| ==> token[k] == token[1..][k - 1];
      if later == -1 then -1 else later + 1
  }

  function EntryText(key: string, value: string): string
  {
    key + "=" + value
  }

  /** The token reads as this key and value. */
  predicate Reads(token: string, key: string, value: string)
  {
    key != "" && '=' !in key && value != "" && token == EntryText(key, value)
  }

  predicate ValidToken(token: string)
  {
    var i := IndexOfEquals(token);
    0 < i < |token| - 1
  }

  lemma ValidTokenReads(token: string)
    requires ValidToken(token)
    ensures var i := IndexOfEquals(token); Reads(token, token[..i], token[i + 1..])
  {
    var i := IndexOfEquals(token);
    var key, value := token[..i], token[i + 1..];
    assert token == key + [token[i]] + value;
    assert forall k :: 0 <= k < |key| ==> key[k] == token[k];
    assert '=' !in key;
  }

  lemma ReadsUniquely(token: string, key: string, value: string)
    requires Reads(token, key, value)
    ensures ValidToken(token)
    ensures var i := IndexOfEquals(token); token[..i] == key && token[i + 1..] == value
  {
    var i := IndexOfEquals(token);
    assert token[|key|] == '=';
    forall k | 0 <= k < |key| ensures token[k] != '=' {
      assert token[k] == key[k] && key[k] in key;
    }
    assert i == |key|;
    assert token[..|key|] == key && token[|key| + 1..] == value;
  }

  /** The tokens filled into a map, in order; a later one of the same key
      overwrites. */
  function Filled(tokens: seq<string>): Result
  {
    if tokens == [] then Ok(map[])
    else
      var before, token := Filled(tokens[..|tokens| - 1]), tokens[|tokens| - 1];
      if before.Err? then before
      else if !ValidToken(token) then Err(InvalidMatcher(token))
      else Ok(before.matchers[token[..IndexOfEquals(token)] := token[IndexOfEquals(token) + 1..]])
  }

  function ParsedText(text: string): Result
  {
    if Blank(text) then Err(EmptyText) else Filled(Fields(text))
  }

  method ParseMatchersText(text: string) returns (r: Result)
    ensures r == ParsedText(text)
  {
    if Blank(text) {
      return Err(EmptyText);
    }
    var tokens := Fields(text);
    var out: Labels := map[];
    for n := 0 to |tokens|
      invariant Filled(tokens[..n]) == Ok(out)
    {
      var token := tokens[n];
      assert tokens[..n + 1][..n] == tokens[..n];
      var i := IndexOfEquals(token);
      if i <= 0 || i == |token| - 1 {
        FirstErrorStays(tokens, n + 1);
        return Err(InvalidMatcher(token));
      }
      out := out[token[..i] := token[i + 1..]];
    }
    assert tokens[..|tokens|] == tokens;
    return Ok(out);
  }

  lemma {:induction false} FirstErrorStays(tokens: seq<string>, n: nat)
    requires n <= |tokens| && Filled(tokens[..n]).Err?
    ensures Filled(tokens) == Filled(tokens[..n])
    decreases |tokens|
  {
    if n == |tokens| {
      assert tokens[..n] == tokens;
    } else {
      assert tokens[..|tokens| - 1][..n] == tokens[..n];
      FirstErrorStays(tokens[..|tokens| - 1], n);
    }
  }

  /** Position n is where the key gets its value: the last token of the key. */
  ghost predicate LastOfKey(tokens: seq<string>, n: int, key: string, value: string)
  {
    && 0 <= n < |tokens| && Reads(tokens[n], key, value)
    && forall l, v :: n < l < |tokens| ==> !Reads(tokens[l], key, v)
  }

  predicate Has(m: Labels, key: string, value: string)
  {
    key in m && m[key] == value
  }

  /** What filling means: it succeeds exactly on valid tokens, the error names
      the first invalid one, and each key has the value of its last token. */
  lemma {:induction false} FilledExactly(tokens: seq<string>)
    ensures Filled(tokens).Ok? <==> forall t :: t in tokens ==> ValidToken(t)
    ensures Filled(tokens).Err? ==>
              exists n :: 0 <= n < |tokens| && Filled(tokens) == Err(InvalidMatcher(tokens[n]))
                          && !ValidToken(tokens[n])
                          && forall k :: 0 <= k < n ==> ValidToken(tokens[k])
    ensures Filled(tokens).Ok? ==>
              forall key, value ::
                Has(Filled(tokens).matchers, key, value) <==> exists n :: LastOfKey(tokens, n, key, value)
  {
    if tokens != [] {
      var last := |tokens| - 1;
      var before, token := tokens[..last], tokens[last];
      FilledExactly(before);
      assert tokens == before + [token];
      if Filled(tokens).Ok? {
        ValidTokenReads(token);
        forall key, value
          ensures Has(Filled(tokens).matchers, key, value) <==> exists n :: LastOfKey(tokens, n, key, value)
        {
          LastOfKeyOneMore(before, token, key, value);
          assert Has(Filled(before).matchers, key, value) <==> exists n :: LastOfKey(before, n, key, value);
        }
      }
    }
  }

  lemma LastOfKeyOneMore(before: seq<string>, token: string, key: string, value: string)
    requires ValidToken(token)
    ensures var i := IndexOfEquals(token); var tokens := before + [token];
            (exists n :: LastOfKey(tokens, n, key, value))
            <==> if token[..i] == key then token[i + 1..] == value else exists n :: LastOfKey(before, n, key, value)
  {
    var i := IndexOfEquals(token);
    if token[..i] == key {
      KeyOfLastToken(before, token, key, value);
    } else {
      KeyNotOfLastToken(before, token, key, value);
    }
  }

  lemma KeyOfLastToken(before: seq<string>, token: string, key: string, value: string)
    requires ValidToken(token) && token[..IndexOfEquals(token)] == key
    ensures var i := IndexOfEquals(token);
            (exists n :: LastOfKey(before + [token], n, key, value)) <==> token[i + 1..] == value
  {
    var i := IndexOfEquals(token);
    var tokens := before + [token];
    ValidTokenReads(token);
    assert tokens[|before|] == token && Reads(token, key, token[i + 1..]);
    if token[i + 1..] == value {
      assert LastOfKey(tokens, |before|, key, value);
    }
    forall n | LastOfKey(tokens, n, key, value) ensures token[i + 1..] == value {
      assert n == |before|;
      ReadsUniquely(token, key, value);
    }
  }

  lemma KeyNotOfLastToken(before: seq<string>, token: string, key: string, value: string)
    requires ValidToken(token) && token[..IndexOfEquals(token)] != key
    ensures (exists n :: LastOfKey(before + [token], n, key, value)) <==> exists n :: LastOfKey(before, n, key, value)
  {
    var tokens := before + [token];
    forall v ensures !Reads(token, key, v) {
      if Reads(token, key, v) {
        ReadsUniquely(token, key, v);
        assert false;
      }
    }
    assert forall l :: 0 <= l < |before| ==> tokens[l] == before[l];
    assert tokens[|before|] == token;
    forall n ensures LastOfKey(tokens, n, key, value) <==> LastOfKey(before, n, key, value) {
      if LastOfKey(tokens, n, key, value) {
        forall l, v | n < l < |before| ensures !Reads(before[l], key, v) {
          assert !Reads(tokens[l], key, v);
        }
      }
    }
  }

  /** Keys and values that survive the text. */
  predicate Clean(m: Labels)
  {
    forall key | key in m :: CleanEntry(key, m[key])
  }

  predicate CleanEntry(key: string, value: string)
  {
    key != "" && '=' !in key && Spaceless(key) && value != "" && Spaceless(value)
  }

  /** Every successful parse yields only clean entries, at least one. */
  lemma ParsedIsClean(text: string)
    requires ParsedText(text).Ok?
    ensures Clean(ParsedText(text).matchers) && ParsedText(text).matchers != map[]
  {
    var tokens, m := Fields(text), ParsedText(text).matchers;
    FieldsAreTokens(text);
    FilledExactly(tokens);
    forall key | key in m ensures CleanEntry(key, m[key]) {
      assert Has(m, key, m[key]);
      var n :| LastOfKey(tokens, n, key, m[key]);
      assert tokens[n] in tokens && Spaceless(tokens[n]);
      PartsAreSpaceless(key, m[key]);
    }
    var token := tokens[|tokens| - 1];
    assert token[..IndexOfEquals(token)] in m;
  }

  lemma PartsAreSpaceless(key: string, value: string)
    requires Spaceless(EntryText(key, value))
    ensures Spaceless(key) && Spaceless(value)
  {
    var s := EntryText(key, value);
    assert forall i :: 0 <= i < |key| ==> s[i] == key[i];
    assert forall i :: 0 <= i < |value| ==> s[|key| + 1 + i] == value[i];
  }

  // --- Printing -----------------------------------------------------------

  /** The keys of `m` in sorted order, once each. */
  ghost predicate Lists(keys: seq<string>, m: Labels)
  {
    Sorted(keys) && multiset(keys) == multiset(m.Keys)
  }

  function Entries(keys: seq<string>, m: Labels): (r: seq<string>)
    ensures |r| == |keys|
  {
    if keys == [] then []
    else Entries(keys[..|keys| - 1], m) + [EntryText(keys[|keys| - 1], Lookup(m, keys[|keys| - 1]))]
  }

  function Joined(keys: seq<string>, m: Labels): string
  {
    if keys == [] then ""
    else
      var n := |keys| - 1;
      Joined(keys[..n], m) + (if n > 0 then " " else "") + EntryText(keys[n], Lookup(m, keys[n]))
  }

  /** The sorted, space-joined text of `m`. */
  ghost predicate IsTextOf(text: string, m: Labels)
  {
    exists keys :: Lists(keys, m) && text == Joined(keys, m)
  }

  lemma TextIsUnique(text: string, text': string, m: Labels)
    requires IsTextOf(text, m) && IsTextOf(text', m)
    ensures text == text'
  {
    var keys :| Lists(keys, m) && text == Joined(keys, m);
    var keys' :| Lists(keys', m) && text' == Joined(keys', m);
    SortedIsCanonical(keys, keys');
  }

  lemma CountedTwice(keys: seq<string>, i: nat, j: nat)
    requires i < j < |keys| && keys[i] == keys[j]
    ensures multiset(keys)[keys[i]] >= 2
  {
    assert keys == keys[..j] + keys[j..];
    assert keys[i] in keys[..j] && keys[j] in keys[j..];
  }

  lemma ListedOnce(keys: seq<string>, m: Labels)
    requires Lists(keys, m)
    ensures forall key :: key in keys <==> key in m
    ensures forall i, j :: 0 <= i < j < |keys| ==> keys[i] != keys[j]
  {
    forall key ensures key in keys <==> key in m {
      assert key in keys <==> key in multiset(keys);
      assert key in m.Keys <==> key in multiset(m.Keys);
    }
    assert forall key :: multiset(m.Keys)[key] <= 1;
    forall i, j | 0 <= i < j < |keys| ensures keys[i] != keys[j] {
      if keys[i] == keys[j] {
        CountedTwice(keys, i, j);
        assert false;
      }
    }
  }

  lemma EntryIsToken(key: string, value: string)
    requires CleanEntry(key, value)
    ensures Spaceless(EntryText(key, value)) && EntryText(key, value) != "" && Reads(EntryText(key, value), key, value)
  {
    assert !IsSpace('=');
  }

  lemma {:induction false} FieldsOfJoined(keys: seq<string>, m: Labels)
    requires forall key :: key in keys ==> CleanEntry(key, Lookup(m, key))
    ensures Fields(Joined(keys, m)) == Entries(keys, m)
  {
    if keys != [] {
      var n := |keys| - 1;
      var entry := EntryText(keys[n], Lookup(m, keys[n]));
      EntryIsToken(keys[n], Lookup(m, keys[n]));
      FieldsOfToken(entry);
      FieldsOfJoined(keys[..n], m);
      if n > 0 {
        FieldsSplit(Joined(keys[..n], m), ' ', entry);
      } else {
        assert Joined(keys, m) == entry;
        assert Entries(keys[..n], m) == [];
      }
    }
  }

  /** The tokens fill exactly these keys, with their values in `m`. */
  ghost predicate FillsFrom(tokens: seq<string>, keys: seq<string>, m: Labels)
  {
    && Filled(tokens).Ok?
    && (forall key :: key in Filled(tokens).matchers <==> key in keys)
    && (forall key :: key in keys ==> Filled(tokens).matchers[key] == Lookup(m, key))
  }

  lemma FillsOneMore(tokens: seq<string>, keys: seq<string>, m: Labels, key: string)
    requires FillsFrom(tokens, keys, m) && CleanEntry(key, Lookup(m, key))
    ensures FillsFrom(tokens + [EntryText(key, Lookup(m, key))], keys + [key], m)
  {
    var token := EntryText(key, Lookup(m, key));
    var all := tokens + [token];
    assert all[..|tokens|] == tokens;
    EntryIsToken(key, Lookup(m, key));
    ReadsUniquely(token, key, Lookup(m, key));
    assert Filled(all) == Ok(Filled(tokens).matchers[key := Lookup(m, key)]);
  }

  lemma {:induction false} FilledFromEntries(keys: seq<string>, m: Labels)
    requires forall key :: key in keys ==> CleanEntry(key, Lookup(m, key))
    ensures FillsFrom(Entries(keys, m), keys, m)
  {
    if keys != [] {
      var n := |keys| - 1;
      var before, last := keys[..n], keys[n];
      assert keys == before + [last];
      assert last in keys && forall key :: key in before ==> key in keys;
      FilledFromEntries(before, m);
      FillsOneMore(Entries(before, m), before, m, last);
      assert Entries(keys, m) == Entries(before, m) + [EntryText(last, Lookup(m, last))];
    }
  }

  lemma CleanTextParses(m: Labels, text: string)
    requires IsTextOf(text, m) && m != map[] && Clean(m)
    ensures ParsedText(text) == Ok(m)
  {
    var keys :| Lists(keys, m) && text == Joined(keys, m);
    ListedOnce(keys, m);
    FieldsOfJoined(keys, m);
    FilledFromEntries(keys, m);
    FieldsAreTokens(text);
    SomeKey(keys, m);
    assert Filled(Entries(keys, m)).matchers == m;
  }

  /** Matcher text round trip, exactly: parsing the text of a map gives the
      map back if and only if it is not empty, its keys are not empty and
      free of '=' and whitespace, and its values are not empty and free of
      whitespace; values may contain '='. */
  lemma TextRoundTrip(m: Labels, text: string)
    requires IsTextOf(text, m)
    ensures ParsedText(text) == Ok(m) <==> m != map[] && Clean(m)
  {
    if ParsedText(text) == Ok(m) {
      ParsedIsClean(text);
    }
    if m != map[] && Clean(m) {
      CleanTextParses(m, text);
    }
  }

  lemma SomeKey(keys: seq<string>, m: Labels)
    requires m != map[] && forall key :: key in m ==> key in keys
    ensures keys != [] && Entries(keys, m) != []
  {
    var key :| key in m;
  }

  lemma TextOfNothing(text: string)
    requires IsTextOf(text, map[])
    ensures text == "" && ParsedText(text).Err?
  {
    var keys :| Lists(keys, map[]) && text == Joined(keys, map[]);
    assert |multiset(keys)| == |keys|;
    assert keys == [];
  }

  /** On clean maps printing loses nothing: two have the same text exactly when
      they are the same. */
  lemma TextDeterminesMatchers(m: Labels, m': Labels, text: string, text': string)
    requires Clean(m) && Clean(m') && IsTextOf(text, m) && IsTextOf(text', m')
    ensures text == text' <==> m == m'
  {
    if m == m' {
      TextIsUnique(text, text', m);
    } else if m == map[] {
      TextOfNothing(text);
      CleanTextParses(m', text');
    } else if m' == map[] {
      TextOfNothing(text');
      CleanTextParses(m, text);
    } else {
      CleanTextParses(m, text);
      CleanTextParses(m', text');
    }
  }

  /** Printing is a normal form for whatever text was typed. */
  lemma TypedTextNormalizes(typed: string, text: string)
    requires ParsedText(typed).Ok? && IsTextOf(text, ParsedText(typed).matchers)
    ensures ParsedText(text) == ParsedText(typed)
  {
    ParsedIsClean(typed);
    TextRoundTrip(ParsedText(typed).matchers, text);
  }

  // --- From the query string ----------------------------------------------

  type Query = map<string, seq<string>>

  const PREFIX := "match."

  /** `url.Values.Get`: the first value, or "". */
  function Get(q: Query, name: string): string
  {
    if name in q && q[name] != [] then q[name][0] else ""
  }

  predicate IsMatcherKey(q: Query, k: string)
  {
    k in q && PREFIX < k && Get(q, k) != ""
  }

  /** The matcher names given by these query keys. */
  function NamesOf(q: Query, ks: set<string>): set<string>
  {
    set k | k in ks && IsMatcherKey(q, k) :: k[|PREFIX|..]
  }

  /** The matchers a query asks to prefill. */
  function Prefill(q: Query): Labels
  {
    map name | name in NamesOf(q, q.Keys) :: Get(q, PREFIX + name)
  }

  lemma KeyOfName(name: string)
    requires name != ""
    ensures PREFIX < PREFIX + name && (PREFIX + name)[|PREFIX|..] == name
  {
  }

  lemma NameOfKey(k: string)
    requires PREFIX < k
    ensures k[|PREFIX|..] != "" && k == PREFIX + k[|PREFIX|..]
  {
  }

  /** They are the `match.<name>` parameters with a non-empty name and value. */
  lemma PrefillExactly(q: Query, name: string)
    ensures var key := "match." + name;
            var given := key in q && q[key] != [] && q[key][0] != "";
            && (name in Prefill(q) <==> name != "" && given)
            && (name in Prefill(q) ==> Prefill(q)[name] == q[key][0])
  {
    if name in Prefill(q) {
      var k :| k in q && IsMatcherKey(q, k) && name == k[|PREFIX|..];
      NameOfKey(k);
    }
    if name != "" && Get(q, PREFIX + name) != "" {
      KeyOfName(name);
      assert IsMatcherKey(q, PREFIX + name);
    }
  }

  lemma NewName(q: Query, ks: set<string>, k: string)
    requires k !in ks
    ensures if IsMatcherKey(q, k) then
              && k[|PREFIX|..] !in NamesOf(q, ks)
              && NamesOf(q, ks + {k}) == NamesOf(q, ks) + {k[|PREFIX|..]}
            else NamesOf(q, ks + {k}) == NamesOf(q, ks)
  {
    if IsMatcherKey(q, k) {
      NameOfKey(k);
      forall k' | k' in ks && IsMatcherKey(q, k') ensures k'[|PREFIX|..] != k[|PREFIX|..] {
        NameOfKey(k');
      }
    }
  }

  method MatcherNames(q: Query) returns (keys: seq<string>)
    ensures multiset(keys) == multiset(NamesOf(q, q.Keys))
  {
    keys := [];
    var unseen := q.Keys;
    while unseen != {}
      invariant unseen <= q.Keys
      invariant multiset(keys) == multiset(NamesOf(q, q.Keys - unseen))
      decreases unseen
    {
      var k :| k in unseen;
      NewName(q, q.Keys - unseen, k);
      assert q.Keys - (unseen - {k}) == q.Keys - unseen + {k};
      if PREFIX <= k {
        var name := k[|PREFIX|..];
        if name != "" && Get(q, k) != "" {
          keys := keys + [name];
        }
      }
      unseen := unseen - {k};
    }
    assert q.Keys - {} == q.Keys;
  }

  method MatchersTextFromQuery(q: Query) returns (text: string)
    ensures IsTextOf(text, Prefill(q))
  {
    var names := MatcherNames(q);
    var keys := Sort(names);
    ghost var m := Prefill(q);
    ListsPrefill(q, keys);
    text := "";
    for i := 0 to |keys|
      invariant text == Joined(keys[..i], m)
    {
      JoinedNext(keys, m, i);
      if i > 0 {
        text := text + " ";
      }
      text := text + (keys[i] + "=" + Get(q, PREFIX + keys[i]));
    }
    assert keys[..|keys|] == keys;
  }

  lemma ListsPrefill(q: Query, keys: seq<string>)
    requires Sorted(keys) && multiset(keys) == multiset(NamesOf(q, q.Keys))
    ensures Lists(keys, Prefill(q))
    ensures forall i :: 0 <= i < |keys| ==> Lookup(Prefill(q), keys[i]) == Get(q, PREFIX + keys[i])
  {
    assert Prefill(q).Keys == NamesOf(q, q.Keys);
    ListedOnce(keys, Prefill(q));
    forall i | 0 <= i < |keys| ensures Lookup(Prefill(q), keys[i]) == Get(q, PREFIX + keys[i]) {
      assert keys[i] in keys;
    }
  }

  lemma JoinedNext(keys: seq<string>, m: Labels, i: nat)
    requires i < |keys|
    ensures Joined(keys[..i + 1], m)
         == Joined(keys[..i], m) + (if i > 0 then " " else "") + EntryText(keys[i], Lookup(m, keys[i]))
  {
    assert keys[..i + 1][..i] == keys[..i];
  }

  /** The prefill flow: submitting the form unchanged asks for exactly the
      matchers of the query if and only if those are some and clean. */
  lemma PrefillRoundTrip(q: Query, text: string)
    requires IsTextOf(text, Prefill(q))
    ensures ParsedText(text) == Ok(Prefill(q)) <==> Prefill(q) != map[] && Clean(Prefill(q))
  {
    TextRoundTrip(Prefill(q), text);
  }
}
