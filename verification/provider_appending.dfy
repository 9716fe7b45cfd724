/** Names as they are cleaned, and what appending a model to the providers changes. */
module ProviderAppending {
  import opened Wrappers
  import opened PythonText
  import opened FreshNames
  import opened ProviderDocuments
  import opened ProviderLoading

  // ---- the name a model is stored under ----

  /** The prefix for an adapter, or for the surface if there is none. */
  predicate IsPrefix(prefix: string, surface: string, adapter: Option<string>) {
    match adapter
    case Some(a) => prefix == a
    case None => if surface == "anthropic" then prefix == "anthropic" else prefix == "openai"
  }

  ghost predicate HasPrefix(name: string, raw: string) {
    name == "openai/" + raw || name == "anthropic/" + raw || name == "chatgpt/" + raw
  }

  lemma {:induction false} FirstSlash(s: string, i: nat, at: nat)
    requires i <= at < |s| && s[at] == '/' && forall k | i <= k < at :: s[k] != '/'
    ensures SlashAt(s, i) == Some(at)
    decreases at - i
  {
    if i < at { FirstSlash(s, i + 1, at); }
  }

  lemma {:induction false} SlashFirst(s: string, i: nat)
    requires i <= |s| && SlashAt(s, i).Some?
    ensures s[SlashAt(s, i).value] == '/'
    decreases |s| - i
  {
    if s[i] != '/' { SlashFirst(s, i + 1); }
  }

  lemma AfterSlash(name: string, word: string, raw: string)
    requires name == word + "/" + raw && '/' !in word
    ensures SlashAt(name, 0) == Some(|word|) && name[..|word|] == word && name[|word| + 1..] == raw
  {
    assert forall k | 0 <= k < |word| :: name[k] == word[k];
    FirstSlash(name, 0, |word|);
  }

  lemma KnownPrefix(name: string, raw: string)
    requires HasPrefix(name, raw)
    ensures var at := SlashAt(name, 0); at.Some? && IsAdapter(name[..at.value]) && name[at.value + 1..] == raw
  {
    hide SlashAt;
    if name == "openai/" + raw {
      WithSlash("openai", "openai/");
      AfterSlash(name, "openai", raw);
    } else if name == "anthropic/" + raw {
      WithSlash("anthropic", "anthropic/");
      AfterSlash(name, "anthropic", raw);
    } else {
      WithSlash("chatgpt", "chatgpt/");
      AfterSlash(name, "chatgpt", raw);
    }
  }

  lemma WithSlash(word: string, slashed: string)
    requires IsAdapter(word) && |slashed| == |word| + 1 && slashed[..|word|] == word && slashed[|word|] == '/'
    ensures slashed == word + "/" && '/' !in word
  {
  }

  lemma NoPrefix(name: string)
    requires forall raw :: !HasPrefix(name, raw)
    ensures var at := SlashAt(name, 0); at.Some? ==> !IsAdapter(name[..at.value])
  {
    var at := SlashAt(name, 0);
    if at.Some? && IsAdapter(name[..at.value]) {
      SlashFirst(name, 0);
      assert name == name[..at.value] + "/" + name[at.value + 1..];
      PrefixSpelled(name, name[..at.value], name[at.value + 1..]);
    }
  }

  lemma PrefixSpelled(name: string, word: string, raw: string)
    requires IsAdapter(word) && name == word + "/" + raw
    ensures HasPrefix(name, raw)
  {
    assert "openai/" == "openai" + "/" && "anthropic/" == "anthropic" + "/" && "chatgpt/" == "chatgpt" + "/";
  }

  /** A stored name is its prefix and the name without the known prefix it had; an unknown one is part of the name. */
  lemma CanonicalExactly(value: string, surface: string, adapter: Option<string>, prefix: string, raw: string)
    requires IsPrefix(prefix, surface, adapter)
    requires HasPrefix(Strip(value), raw) || (raw == Strip(value) && forall r :: !HasPrefix(raw, r))
    ensures Canonical(value, surface, adapter) == if Strip(raw) == "" then "" else prefix + "/" + Strip(raw)
  {
    hide Strip, SlashAt;
    if HasPrefix(Strip(value), raw) {
      KnownPrefix(Strip(value), raw);
    } else {
      NoPrefix(raw);
      StripTwice(value);
    }
  }

  // ---- names made of words ----

  /** Words between runs of other characters, one run in front and one behind. */
  function Spread(words: seq<string>, gaps: seq<string>): string
    requires |gaps| == |words| + 1
  {
    if words == [] then gaps[0]
    else Spread(words[..|words| - 1], gaps[..|gaps| - 1]) + words[|words| - 1] + gaps[|gaps| - 1]
  }

  function JoinedBy(words: seq<string>, sep: char): string {
    if words == [] then "" else if |words| == 1 then words[0]
    else JoinedBy(words[..|words| - 1], sep) + [sep] + words[|words| - 1]
  }

  /** Only the runs at the ends may be empty. */
  predicate AreWords(words: seq<string>, gaps: seq<string>, inWord: char -> bool) {
    && |gaps| == |words| + 1
    && (forall k | 0 <= k < |words| :: words[k] != "" && forall i | 0 <= i < |words[k]| :: inWord(words[k][i]))
    && (forall k | 0 <= k < |gaps| :: forall i | 0 <= i < |gaps[k]| :: !inWord(gaps[k][i]))
    && forall k | 0 < k < |words| :: gaps[k] != ""
  }

  /** Each run of other characters as one separator. */
  function Cleaned(s: string, inWord: char -> bool, sep: char): string {
    if s == "" then ""
    else
      var front, c := Cleaned(s[..|s| - 1], inWord, sep), s[|s| - 1];
      if inWord(c) then front + [c]
      else if front != "" && front[|front| - 1] == sep then front else front + [sep]
  }

  function Trimmed(s: string, sep: char): string {
    var t := if s != "" && s[0] == sep then s[1..] else s;
    if t != "" && t[|t| - 1] == sep then t[..|t| - 1] else t
  }

  lemma {:induction false} CleanedWord(front: string, word: string, inWord: char -> bool, sep: char)
    requires forall i | 0 <= i < |word| :: inWord(word[i])
    ensures Cleaned(front + word, inWord, sep) == Cleaned(front, inWord, sep) + word
  {
    if word == "" {
      assert front + word == front;
    } else {
      var n := |word| - 1;
      assert (front + word)[..|front| + n] == front + word[..n];
      CleanedWord(front, word[..n], inWord, sep);
      assert word == word[..n] + [word[n]];
    }
  }

  predicate EndsWith(s: string, c: char) { s != "" && s[|s| - 1] == c }

  lemma {:induction false} CleanedGap(front: string, gap: string, inWord: char -> bool, sep: char)
    requires forall i | 0 <= i < |gap| :: !inWord(gap[i])
    ensures var c := Cleaned(front, inWord, sep);
            Cleaned(front + gap, inWord, sep) == if gap == "" || EndsWith(c, sep) then c else c + [sep]
  {
    if gap == "" {
      assert front + gap == front;
    } else {
      var n := |gap| - 1;
      assert (front + gap)[..|front| + n] == front + gap[..n];
      CleanedGap(front, gap[..n], inWord, sep);
    }
  }

  function Edge(gap: string, sep: char): string { if gap == "" then "" else [sep] }

  /** What cleaning leaves of words between runs. */
  function Framed(words: seq<string>, gaps: seq<string>, sep: char): string
    requires |gaps| == |words| + 1
  {
    Edge(gaps[0], sep) + if words == [] then "" else JoinedBy(words, sep) + Edge(gaps[|gaps| - 1], sep)
  }

  /** A text that neither begins nor ends with the separator. */
  predicate Solid(s: string, sep: char) { s != "" && s[0] != sep && s[|s| - 1] != sep }

  lemma {:induction false} SpreadCleaned(words: seq<string>, gaps: seq<string>, inWord: char -> bool, sep: char)
    requires AreWords(words, gaps, inWord) && !inWord(sep)
    ensures Cleaned(Spread(words, gaps), inWord, sep) == Framed(words, gaps, sep)
    ensures words != [] ==> Solid(JoinedBy(words, sep), sep)
  {
    hide Cleaned, JoinedBy, Framed, Solid;
    if words == [] {
      assert "" + gaps[0] == gaps[0];
      CleanedGap("", gaps[0], inWord, sep);
      FramedNone(gaps, inWord, sep);
    } else {
      var n := |words| - 1;
      var fw, fg, word, gap := words[..n], gaps[..n + 1], words[n], gaps[n + 1];
      WordsBefore(words, gaps, inWord);
      SpreadCleaned(fw, fg, inWord, sep);
      CleanedWord(Spread(fw, fg), word, inWord, sep);
      CleanedGap(Spread(fw, fg) + word, gap, inWord, sep);
      assert words == fw + [word] && gaps == fg + [gap];
      JoinedOne(fw, word, inWord, sep);
      FramedOne(fw, fg, word, gap, sep);
      WordEnds(Framed(fw, fg, sep), word, inWord, sep);
    }
  }

  lemma FramedNone(gaps: seq<string>, inWord: char -> bool, sep: char)
    requires |gaps| == 1
    ensures Framed([], gaps, sep) == Edge(gaps[0], sep) && Cleaned("", inWord, sep) == ""
  {
  }

  lemma WordEnds(front: string, word: string, inWord: char -> bool, sep: char)
    requires word != "" && (forall i | 0 <= i < |word| :: inWord(word[i])) && !inWord(sep)
    ensures !EndsWith(front + word, sep)
  {
    assert (front + word)[|front + word| - 1] == word[|word| - 1];
  }

  lemma WordsBefore(words: seq<string>, gaps: seq<string>, inWord: char -> bool)
    requires AreWords(words, gaps, inWord) && words != []
    ensures var n := |words| - 1;
            AreWords(words[..n], gaps[..n + 1], inWord) && (n > 0 ==> gaps[..n + 1][n] != "")
  {
  }

  lemma JoinedOne(fw: seq<string>, word: string, inWord: char -> bool, sep: char)
    requires fw != [] ==> Solid(JoinedBy(fw, sep), sep)
    requires word != "" && (forall i | 0 <= i < |word| :: inWord(word[i])) && !inWord(sep)
    ensures JoinedBy(fw + [word], sep) == (if fw == [] then word else JoinedBy(fw, sep) + [sep] + word)
    ensures Solid(JoinedBy(fw + [word], sep), sep)
  {
    assert (fw + [word])[..|fw|] == fw;
    var all := JoinedBy(fw + [word], sep);
    assert word[0] != sep && word[|word| - 1] != sep;
    assert all[|all| - 1] == word[|word| - 1];
  }

  lemma FramedOne(fw: seq<string>, fg: seq<string>, word: string, gap: string, sep: char)
    requires |fg| == |fw| + 1 && (fw != [] ==> fg[|fw|] != "")
    requires JoinedBy(fw + [word], sep) == (if fw == [] then word else JoinedBy(fw, sep) + [sep] + word)
    ensures Framed(fw + [word], fg + [gap], sep) == Framed(fw, fg, sep) + word + Edge(gap, sep)
  {
    hide JoinedBy;
    Assoc(Edge(fg[0], sep), if fw == [] then "" else JoinedBy(fw, sep) + [sep], word, Edge(gap, sep));
    assert "" + word == word;
  }

  lemma Assoc(a: string, b: string, c: string, d: string)
    ensures a + (b + c + d) == a + b + c + d
  {
  }

  lemma FramedTrimmed(words: seq<string>, gaps: seq<string>, sep: char)
    requires |gaps| == |words| + 1 && (words != [] ==> Solid(JoinedBy(words, sep), sep))
    ensures Trimmed(Framed(words, gaps, sep), sep) == JoinedBy(words, sep)
  {
    hide Solid, Trimmed;
    if words == [] {
      NothingLeft(gaps[0], sep);
    } else {
      EdgesGo(gaps[0], JoinedBy(words, sep), gaps[|gaps| - 1], sep);
    }
  }

  lemma NothingLeft(gap: string, sep: char)
    ensures Trimmed(Edge(gap, sep) + "", sep) == ""
  {
  }

  lemma EdgesGo(front: string, solid: string, behind: string, sep: char)
    requires Solid(solid, sep)
    ensures Trimmed(Edge(front, sep) + (solid + Edge(behind, sep)), sep) == solid
  {
    var t := solid + Edge(behind, sep);
    assert t[0] == solid[0] && t[..|solid|] == solid;
    if front == "" { assert "" + t == t; } else { assert ([sep] + t)[1..] == t; }
    if behind == "" { assert t == solid; }
  }

  lemma {:induction false} WordsCleaned(s: string)
    ensures Words(s) == Cleaned(s, c => IsWord(c) && c != '_', '_')
    ensures ModelWords(s) == Cleaned(s, c => (IsWord(c) || c == '.'), '-')
  {
    if s != "" { WordsCleaned(s[..|s| - 1]); }
  }

  lemma Distilled(words: seq<string>, gaps: seq<string>, inWord: char -> bool, sep: char)
    requires AreWords(words, gaps, inWord) && !inWord(sep)
    ensures Trimmed(Cleaned(Spread(words, gaps), inWord, sep), sep) == JoinedBy(words, sep)
  {
    SpreadCleaned(words, gaps, inWord, sep);
    FramedTrimmed(words, gaps, sep);
  }

  /** An anchor's part are the words of a name with underscores between them, p_ in front of a digit. */
  lemma AnchorPartExactly(s: string, fallback: string, words: seq<string>, gaps: seq<string>)
    requires AreWords(words, gaps, c => IsWord(c) && c != '_') && Strip(s) == Spread(words, gaps) && fallback != ""
    ensures var part := if words == [] then fallback else JoinedBy(words, '_');
            AnchorPart(s, fallback) == if '0' <= part[0] <= '9' then "p_" + part else part
  {
    hide Strip, Words, Spread, AreWords, Cleaned;
    WordsCleaned(Strip(s));
    Distilled(words, gaps, c => IsWord(c) && c != '_', '_');
    JoinedFull(words, gaps, c => IsWord(c) && c != '_', '_');
  }

  lemma JoinedFull(words: seq<string>, gaps: seq<string>, inWord: char -> bool, sep: char)
    requires AreWords(words, gaps, inWord) && !inWord(sep)
    ensures JoinedBy(words, sep) == "" <==> words == []
  {
    SpreadCleaned(words, gaps, inWord, sep);
  }

  /** The name made from a model's are its words with dashes between them, at most 40 characters. */
  lemma KeyNameExactly(name: string, words: seq<string>, gaps: seq<string>)
    requires AreWords(words, gaps, c => (IsWord(c) || c == '.')) && Strip(name) == Spread(words, gaps)
    ensures var all := JoinedBy(words, '-');
            KeyNameFromModel(name) == if words == [] then "imported" else if |all| > 40 then all[..40] else all
  {
    hide Strip, ModelWords, Spread, AreWords, Cleaned;
    WordsCleaned(Strip(name));
    Distilled(words, gaps, c => (IsWord(c) || c == '.'), '-');
    JoinedFull(words, gaps, c => (IsWord(c) || c == '.'), '-');
  }

  /** Every text is words between such runs. */
  lemma {:induction false} WordsThere(s: string, inWord: char -> bool) returns (words: seq<string>, gaps: seq<string>)
    ensures AreWords(words, gaps, inWord) && Spread(words, gaps) == s
  {
    if s == "" {
      words, gaps := [], [""];
    } else {
      var n := |s| - 1;
      words, gaps := WordsThere(s[..n], inWord);
      assert s == s[..n] + [s[n]];
      if !inWord(s[n]) {
        GapGrows(words, gaps, s[n], inWord);
        gaps := gaps[|words| := gaps[|words|] + [s[n]]];
      } else if words != [] && gaps[|words|] == "" {
        WordGrows(words, gaps, s[n], inWord);
        words := words[|words| - 1 := words[|words| - 1] + [s[n]]];
      } else {
        WordStarts(words, gaps, s[n], inWord);
        words, gaps := words + [[s[n]]], gaps + [""];
      }
    }
  }

  lemma GapGrows(words: seq<string>, gaps: seq<string>, c: char, inWord: char -> bool)
    requires AreWords(words, gaps, inWord) && !inWord(c)
    ensures var more := gaps[|words| := gaps[|words|] + [c]];
            AreWords(words, more, inWord) && Spread(words, more) == Spread(words, gaps) + [c]
  {
    var n := |words|;
    var more := gaps[n := gaps[n] + [c]];
    if n > 0 { assert more[..n] == gaps[..n]; }
  }

  lemma WordGrows(words: seq<string>, gaps: seq<string>, c: char, inWord: char -> bool)
    requires AreWords(words, gaps, inWord) && inWord(c) && words != [] && gaps[|words|] == ""
    ensures var more := words[|words| - 1 := words[|words| - 1] + [c]];
            AreWords(more, gaps, inWord) && Spread(more, gaps) == Spread(words, gaps) + [c]
  {
    var n := |words| - 1;
    var more := words[n := words[n] + [c]];
    assert more[..n] == words[..n];
    NoBehind(Spread(words[..n], gaps[..n + 1]), words[n], c);
  }

  lemma NoBehind(a: string, b: string, c: char)
    ensures a + (b + [c]) + "" == a + b + "" + [c]
  {
  }

  lemma WordStarts(words: seq<string>, gaps: seq<string>, c: char, inWord: char -> bool)
    requires AreWords(words, gaps, inWord) && inWord(c) && (words != [] ==> gaps[|words|] != "")
    ensures AreWords(words + [[c]], gaps + [""], inWord) && Spread(words + [[c]], gaps + [""]) == Spread(words, gaps) + [c]
  {
    var n := |words|;
    assert (words + [[c]])[..n] == words && (gaps + [""])[..n + 1] == gaps;
  }

  // ---- the key a model gets ----

  /** A key as it is kept beside a new one. */
  predicate IsKept(provider: string, k: Key, kept: Key) {
    && kept.value == k.value && kept.name == Strip(k.name)
    && if Strip(k.id) != "" then kept.id == Strip(k.id) else kept.id == StableKeyId(provider, Strip(k.name))
  }

  /** The kept keys are those at these places: all that have a value, in order. */
  ghost predicate AllKept(provider: string, keys: seq<Key>, kept: seq<Key>, places: seq<nat>) {
    && |places| == |kept| && (forall k | 0 <= k < |places| :: places[k] < |keys| && keys[places[k]].value != "")
    && (forall k | 0 <= k < |places| :: IsKept(provider, keys[places[k]], kept[k]))
    && (forall a, b | 0 <= a < b < |places| :: places[a] < places[b])
    && forall i: nat | i < |keys| :: keys[i].value != "" ==> i in places
  }

  lemma {:induction false} KeptPlaces(provider: string, keys: seq<Key>) returns (places: seq<nat>)
    ensures AllKept(provider, keys, WithValues(provider, keys), places)
  {
    hide Strip, StableKeyId;
    places := [];
    if keys != [] {
      var n := |keys| - 1;
      places := KeptPlaces(provider, keys[..n]);
      KeptStep(provider, keys, WithValues(provider, keys[..n]), places);
      if keys[n].value != "" { places := places + [n]; }
    }
  }

  lemma KeptStep(provider: string, keys: seq<Key>, kept: seq<Key>, places: seq<nat>)
    requires keys != [] && AllKept(provider, keys[..|keys| - 1], kept, places)
    ensures var n := |keys| - 1;
            var id := if Strip(keys[n].id) != "" then Strip(keys[n].id) else StableKeyId(provider, Strip(keys[n].name));
            if keys[n].value == "" then AllKept(provider, keys, kept, places)
            else AllKept(provider, keys, kept + [Key(id, Strip(keys[n].name), keys[n].value)], places + [n])
  {
    hide Strip, StableKeyId;
    var n := |keys| - 1;
    assert forall i | 0 <= i < n :: keys[..n][i] == keys[i];
    forall i: nat | i < |keys| && keys[i].value != "" ensures i in places + [n] {
      if i < n { assert keys[..n][i].value != ""; }
    }
  }

  /** The first name of a base, base-2, base-3 and so on that no key has. */
  ghost predicate IsFreeName(keys: seq<Key>, base: string, name: string) {
    && (forall k | k in keys :: k.name != name)
    && if forall k | k in keys :: k.name != base then name == base
       else exists n: nat :: n >= 2 && name == base + "-" + Decimal(n)
                             && forall j: nat | 2 <= j < n :: exists k :: k in keys && k.name == base + "-" + Decimal(j)
  }

  predicate IsFirstWithValue(keys: seq<Key>, value: string, a: nat) {
    a < |keys| && keys[a].value == value && forall b | 0 <= b < a :: keys[b].value != value
  }

  /**
   The key for a value: none for no value, but the only key's name is used; the first one with
   it if that has a name; else a new one, under a fresh name, behind all that have a value.
   */
  ghost predicate Ensured(p: Provider, value: string, preferred: string, keys: seq<Key>, name: string, places: seq<nat>) {
    if value == "" then keys == p.keys && name == (if |p.keys| == 1 then Strip(p.keys[0].name) else "")
    else if exists a: nat :: IsFirstWithValue(p.keys, value, a) && Strip(p.keys[a].name) != "" then
      keys == p.keys && exists a: nat :: IsFirstWithValue(p.keys, value, a) && name == Strip(p.keys[a].name)
    else
      && keys != [] && keys[|keys| - 1] == Key(StableKeyId(p.name, name), name, value)
      && AllKept(p.name, p.keys, keys[..|keys| - 1], places)
      && IsFreeName(keys[..|keys| - 1], if Strip(preferred) == "" then "default" else Strip(preferred), name)
  }

  lemma {:induction false} ValueFirst(keys: seq<Key>, value: string, i: nat)
    requires i <= |keys| && forall b | 0 <= b < i :: keys[b].value != value
    ensures match ByValue(keys, value, i)
            case None => forall b | 0 <= b < |keys| :: keys[b].value != value
            case Some(k) => exists a: nat :: IsFirstWithValue(keys, value, a) && k == keys[a]
    decreases |keys| - i
  {
    if i < |keys| {
      if keys[i].value == value { assert IsFirstWithValue(keys, value, i); } else { ValueFirst(keys, value, i + 1); }
    }
  }

  lemma FirstOnce(keys: seq<Key>, value: string, a: nat, b: nat)
    requires IsFirstWithValue(keys, value, a) && IsFirstWithValue(keys, value, b)
    ensures a == b
  {
  }

  lemma {:induction false} FreeFrom(base: string, used: set<string>, k: nat) returns (n: nat)
    requires k >= 1 && Tried(base, used, k)
    ensures n >= k && FirstFree(base, used, k) == Candidate(base, n) && Candidate(base, n) !in used && Tried(base, used, n)
    decreases |used| + 1 - k
  {
    TriedBound(base, used, k);
    if Candidate(base, k) !in used {
      n := k;
    } else {
      assert Tried(base, used, k + 1);
      TriedBound(base, used, k + 1);
      n := FreeFrom(base, used, k + 1);
    }
  }

  lemma FreeNamed(keys: seq<Key>, base: string)
    requires forall k | k in keys :: Strip(k.name) == k.name
    ensures IsFreeName(keys, base, FirstFree(base, UsedNames(keys), 1))
  {
    hide Strip, FirstFree, Decimal;
    var used := UsedNames(keys);
    var n := FreeFrom(base, used, 1);
    assert forall x :: x in used <==> exists k :: k in keys && k.name == x;
    if n >= 2 {
      assert Candidate(base, 1) in used;
      assert Candidate(base, n) == base + "-" + Decimal(n);
      forall j: nat | 2 <= j < n ensures exists k :: k in keys && k.name == base + "-" + Decimal(j) {
        assert Candidate(base, j) in used;
      }
    }
  }

  lemma EnsuredExactly(p: Provider, value: string, preferred: string) returns (places: seq<nat>)
    ensures var (keys, name) := EnsureKey(p, value, preferred); Ensured(p, value, preferred, keys, name, places)
  {
    hide Strip, StableKeyId, FirstFree, IsFreeName, UsedNames, IsFirstWithValue, AllKept, WithValues;
    places := KeptPlaces(p.name, p.keys);
    ValueFirst(p.keys, value, 0);
    forall a: nat, b: nat | IsFirstWithValue(p.keys, value, a) && IsFirstWithValue(p.keys, value, b) ensures a == b {
      FirstOnce(p.keys, value, a, b);
    }
    NoneWithValue(p.keys, value);
    NewKey(p, value, preferred, places);
  }

  lemma NoneWithValue(keys: seq<Key>, value: string)
    ensures (forall b | 0 <= b < |keys| :: keys[b].value != value) ==> forall a: nat :: !IsFirstWithValue(keys, value, a)
  {
  }

  lemma NewKey(p: Provider, value: string, preferred: string, places: seq<nat>)
    requires AllKept(p.name, p.keys, WithValues(p.name, p.keys), places)
    ensures var kept := WithValues(p.name, p.keys);
            var base := if Strip(preferred) == "" then "default" else Strip(preferred);
            var name := FirstFree(base, UsedNames(kept), 1);
            IsFreeName(kept, base, name) && (kept + [Key(StableKeyId(p.name, name), name, value)])[..|kept|] == kept
  {
    hide Strip, StableKeyId, FirstFree, IsFreeName, UsedNames;
    var kept := WithValues(p.name, p.keys);
    forall k | k in kept ensures Strip(k.name) == k.name {
      var i :| 0 <= i < |kept| && kept[i] == k;
      assert IsKept(p.name, p.keys[places[i]], k);
      StripTwice(p.keys[places[i]].name);
    }
    FreeNamed(kept, if Strip(preferred) == "" then "default" else Strip(preferred));
  }

  // ---- the appended model ----

  ghost predicate IsFirstNamed(keys: seq<Key>, name: string, a: nat) {
    a < |keys| && Strip(keys[a].name) == name && forall b | 0 <= b < a :: Strip(keys[b].name) != name
  }

  lemma {:induction false} NameFirst(keys: seq<Key>, name: string, i: nat)
    requires i <= |keys| && forall b | 0 <= b < i :: Strip(keys[b].name) != name
    ensures match FoundName(keys, name, i)
            case None => forall b | 0 <= b < |keys| :: Strip(keys[b].name) != name
            case Some(k) => exists a: nat :: IsFirstNamed(keys, name, a) && k == keys[a]
    decreases |keys| - i
  {
    hide Strip;
    if i < |keys| {
      if Strip(keys[i].name) == name { assert IsFirstNamed(keys, name, i); } else { NameFirst(keys, name, i + 1); }
    }
  }

  /** A provider with one more model: it has a key for the model's value, and the model carries that key's name and id. */
  ghost predicate Extends(p: Provider, m: Model, q: Provider) {
    && q.name == p.name && q.enabled == p.enabled && q.adapter == p.adapter
    && q.base == (if Strip(p.base) == "" then Strip(m.base) else p.base)
    && |q.models| == |p.models| + 1 && q.models[..|p.models|] == p.models
    && var n := q.models[|p.models|];
       var preferred := if Strip(m.keyName) != "" then Strip(m.keyName) else KeyNameFromModel(m.name);
       exists name, places ::
         && Ensured(p, Strip(m.keyValue), preferred, q.keys, name, places)
         && n == m.(keyName := n.keyName, keyId := n.keyId)
         && if name == "" then n == m
            else n.keyName == name && exists a: nat :: IsFirstNamed(q.keys, name, a) && n.keyId == Strip(q.keys[a].id)
  }

  lemma ExtendedExactly(p: Provider, m: Model)
    ensures Extends(p, m, Extended(p, m))
  {
    hide Strip, StableKeyId, EnsureKey, KeyNameFromModel, FoundName, IsFirstNamed, Ensured;
    var preferred := if Strip(m.keyName) != "" then Strip(m.keyName) else KeyNameFromModel(m.name);
    var (keys, name) := EnsureKey(p, Strip(m.keyValue), preferred);
    var places := EnsuredExactly(p, Strip(m.keyValue), preferred);
    NameFirst(keys, name, 0);
    NameThere(p, Strip(m.keyValue), preferred, keys, name, places);
    var q := Extended(p, m);
    assert q.models[..|p.models|] == p.models;
    assert Ensured(p, Strip(m.keyValue), preferred, q.keys, name, places);
  }

  /** The name found or made belongs to a key. */
  lemma NameThere(p: Provider, value: string, preferred: string, keys: seq<Key>, name: string, places: seq<nat>)
    requires Ensured(p, value, preferred, keys, name, places) && (keys, name) == EnsureKey(p, value, preferred)
    ensures name != "" ==> exists b :: 0 <= b < |keys| && Strip(keys[b].name) == name
  {
    hide Strip, StableKeyId, FirstFree, IsFreeName, AllKept, EnsureKey;
    if value == "" {
      assert |p.keys| == 1 ==> Strip(keys[0].name) == name;
    } else if exists a: nat :: IsFirstWithValue(p.keys, value, a) && Strip(p.keys[a].name) != "" {
      var a: nat :| IsFirstWithValue(p.keys, value, a) && name == Strip(p.keys[a].name);
    } else {
      FreeStripped(keys[..|keys| - 1], preferred, name);
      assert Strip(keys[|keys| - 1].name) == name;
    }
  }

  lemma {:induction false} DecimalEnd(n: nat)
    ensures var s := Decimal(n); s != "" && '0' <= s[|s| - 1] <= '9'
  {
  }

  lemma FreeStripped(keys: seq<Key>, preferred: string, name: string)
    requires IsFreeName(keys, if Strip(preferred) == "" then "default" else Strip(preferred), name)
    ensures Strip(name) == name
  {
    hide Strip, Decimal;
    var base := if Strip(preferred) == "" then "default" else Strip(preferred);
    StripTwice(preferred);
    if name == base {
      SolidStrip(base);
    } else {
      var n: nat :| n >= 2 && name == base + "-" + Decimal(n);
      DecimalEnd(n);
      assert name[|name| - 1] == Decimal(n)[|Decimal(n)| - 1];
      SolidStrip(name);
    }
  }

  lemma SolidStrip(s: string)
    requires s != "" && !IsSpace(s[0]) && !IsSpace(s[|s| - 1])
    ensures Strip(s) == s
  {
    StripPadded("", s, "");
    assert "" + s + "" == s;
  }

  // ---- where it is appended ----

  ghost predicate IsLastNamed(ps: seq<Provider>, name: string, i: nat) {
    i < |ps| && ps[i].name == name && forall j | i < j < |ps| :: ps[j].name != name
  }

  /** A provider made for a model, before the model is in it. */
  predicate IsNewFor(p: Provider, m: Model) {
    && p.name == Strip(m.provider) && p.enabled && p.base == Strip(m.base) && p.adapter == None && p.models == []
    && if Strip(m.keyValue) == "" then p.keys == []
       else
         && |p.keys| == 1 && p.keys[0].value == Strip(m.keyValue)
         && p.keys[0].name == (if Strip(m.keyName) == "" then "default" else Strip(m.keyName))
         && p.keys[0].id == (if Strip(m.keyId) == "" then StableKeyId(p.name, p.keys[0].name) else Strip(m.keyId))
  }

  lemma {:induction false} LastNamed(ps: seq<Provider>, name: string)
    ensures match Find(ps, name)
            case None => forall j | 0 <= j < |ps| :: ps[j].name != name
            case Some(i) => IsLastNamed(ps, name, i)
  {
    if ps != [] && ps[|ps| - 1].name != name { LastNamed(ps[..|ps| - 1], name); }
  }

  /** The model goes to the last provider of its name, or to a new one behind all others, and no other changes. */
  ghost predicate Appends(ps: seq<Provider>, m: Model, qs: seq<Provider>) {
    if exists i: nat :: IsLastNamed(ps, Strip(m.provider), i) then
      |qs| == |ps| && exists i: nat ::
        && IsLastNamed(ps, Strip(m.provider), i) && Extends(ps[i], m, qs[i])
        && forall j | 0 <= j < |ps| && j != i :: qs[j] == ps[j]
    else |qs| == |ps| + 1 && qs[..|ps|] == ps && exists p :: IsNewFor(p, m) && Extends(p, m, qs[|ps|])
  }

  lemma AppendedExactly(ps: seq<Provider>, m: Model)
    ensures Appends(ps, m, AppendModel(ps, m))
  {
    hide Strip, StableKeyId, Extended, Extends, NewProvider, IsNewFor;
    var name := Strip(m.provider);
    LastNamed(ps, name);
    var at := Find(ps, name);
    var qs := AppendModel(ps, m);
    if at.Some? {
      ExtendedExactly(ps[at.value], m);
      assert IsLastNamed(ps, name, at.value) && Extends(ps[at.value], m, qs[at.value]);
    } else {
      ExtendedExactly(NewProvider(m), m);
      IsNew(m);
      assert qs[..|ps|] == ps && qs[|ps|] == Extended(NewProvider(m), m);
    }
  }

  lemma IsNew(m: Model)
    ensures IsNewFor(NewProvider(m), m)
  {
    hide Strip, StableKeyId;
  }
}
