/**
 * The `@mention` tokenizer of the comment handler: `re.findall(r'@(\w+)', text)`.
 * Scanning left to right, an `@` immediately followed by a word character
 * starts a match; the match takes the longest run of word characters after
 * it and scanning resumes after that run. Any other position is skipped.
 * Word characters are the ASCII letters, digits and `_`.
 */
module MentionParser {
  import opened Strings

  predicate IsWordChar(c: char)
  {
    ('a' <= c <= 'z') || ('A' <= c <= 'Z') || ('0' <= c <= '9') || c == '_'
  }

  /** A non-empty run of word characters: what `(\w+)` captures. */
  predicate IsWord(s: string)
  {
    |s| > 0 && forall i :: 0 <= i < |s| ==> IsWordChar(s[i])
  }

  /** Length of the longest prefix of `s` made of word characters (the greedy `\w+`). */
  function WordRun(s: string): (n: nat)
    ensures n <= |s|
    ensures forall i :: 0 <= i < n ==> IsWordChar(s[i])
    ensures n < |s| ==> !IsWordChar(s[n])
  {
    if |s| == 0 || !IsWordChar(s[0]) then 0 else 1 + WordRun(s[1..])
  }

  /** `re.findall(r'@(\w+)', text)`: the captured usernames, in order of appearance. */
  function FindMentions(text: string): (tokens: seq<string>)
    ensures forall k :: 0 <= k < |tokens| ==> IsWord(tokens[k])
    decreases |text|
  {
    if |text| < 2 then []
    else if text[0] == '@' && IsWordChar(text[1]) then
      var n := WordRun(text[1..]);
      [text[1..1 + n]] + FindMentions(text[1 + n..])
    else FindMentions(text[1..])
  }

  /** The first step of the scan when the text starts with `@` and a word character. */
  lemma MatchAt(text: string)
    requires |text| >= 2 && text[0] == '@' && IsWordChar(text[1])
    ensures var n := WordRun(text[1..]);
      FindMentions(text) == [text[1..1 + n]] + FindMentions(text[1 + n..])
  {
  }

  /** `set(mentions)`: each username is handled once per comment. */
  function MentionedUsernames(text: string): (names: set<string>)
    ensures forall name :: name in names <==> name in FindMentions(text)
  {
    set k | 0 <= k < |FindMentions(text)| :: FindMentions(text)[k]
  }

  /** The greedy run of a word followed by a non-word character is the whole word. */
  lemma {:induction false} WordRunOfWord(name: string, rest: string)
    requires IsWord(name)
    requires rest == [] || !IsWordChar(rest[0])
    ensures WordRun(name + rest) == |name|
    decreases |name|
  {
    var s := name + rest;
    assert s[0] == name[0];
    assert s[1..] == name[1..] + rest;
    if |name| == 1 {
      assert s[1..] == rest;
    } else {
      WordRunOfWord(name[1..], rest);
    }
  }

  /**
   * Completeness of the tokenizer: `@name` followed by the end of the text or
   * by a non-word character yields exactly `name`, then whatever follows.
   */
  lemma MentionRoundTrip(name: string, rest: string)
    requires IsWord(name)
    requires rest == [] || !IsWordChar(rest[0])
    ensures FindMentions("@" + name + rest) == [name] + FindMentions(rest)
  {
    var text := "@" + name + rest;
    assert text == ['@'] + (name + rest);
    assert text[1..] == name + rest;
    WordRunOfWord(name, rest);
    var n := |name|;
    calc {
      FindMentions(text);
      { MatchAt(text); }
      [text[1..1 + n]] + FindMentions(text[1 + n..]);
      { assert text[1..1 + n] == name && text[1 + n..] == rest; }
      [name] + FindMentions(rest);
    }
  }

  /** Soundness of the tokenizer: every token appears in the text right after an `@`. */
  lemma {:induction false} MentionsOccurInText(text: string)
    ensures forall k :: 0 <= k < |FindMentions(text)| ==> Contains(text, "@" + FindMentions(text)[k])
    decreases |text|
  {
    if |text| >= 2 {
      var tokens := FindMentions(text);
      if text[0] == '@' && IsWordChar(text[1]) {
        var n := WordRun(text[1..]);
        var tail := text[1 + n..];
        MentionsOccurInText(tail);
        assert tokens == [text[1..1 + n]] + FindMentions(tail);
        assert "@" + text[1..1 + n] == text[..1 + n];
        assert text == text[..1 + n] + tail;
        forall k | 0 <= k < |tokens| ensures Contains(text, "@" + tokens[k]) {
          if k == 0 {
            assert "@" + tokens[0] <= text;
          } else {
            assert tokens[k] == FindMentions(tail)[k - 1];
            ContainsInConcat(text[..1 + n], tail, "@" + tokens[k]);
          }
        }
      } else {
        MentionsOccurInText(text[1..]);
        assert text == text[..1] + text[1..];
        forall k | 0 <= k < |tokens| ensures Contains(text, "@" + tokens[k]) {
          ContainsInConcat(text[..1], text[1..], "@" + tokens[k]);
        }
      }
    }
  }

  /** Text without `@` in front of the rest contributes no mention. */
  lemma {:induction false} SkipWithoutAt(prefix: string, rest: string)
    requires NoAt(prefix)
    ensures FindMentions(prefix + rest) == FindMentions(rest)
    decreases |prefix|
  {
    if |prefix| > 0 {
      var text := prefix + rest;
      assert text[0] == prefix[0];
      assert text[1..] == prefix[1..] + rest;
      SkipWithoutAt(prefix[1..], rest);
    } else {
      assert prefix + rest == rest;
    }
  }

  /** A text without `@` mentions nobody. */
  lemma NoAtNoMentions(text: string)
    requires NoAt(text)
    ensures FindMentions(text) == []
  {
    SkipWithoutAt(text, "");
    assert text + "" == text;
  }

  /** No `@` anywhere in `s`. */
  predicate NoAt(s: string)
  {
    forall i :: 0 <= i < |s| ==> s[i] != '@'
  }

  lemma Associate(a: string, b: string, c: string)
    ensures a + b + c == a + (b + c)
  {
  }

  /** A mention after plain text: the name, then the mentions of what follows it. */
  lemma MentionAfterText(before: string, name: string, rest: string)
    requires NoAt(before) && IsWord(name)
    requires rest == [] || !IsWordChar(rest[0])
    ensures FindMentions(before + "@" + name + rest) == [name] + FindMentions(rest)
  {
    MentionRoundTrip(name, rest);
    SkipWithoutAt(before, "@" + name + rest);
    Associate(before, "@" + name, rest);
    Associate(before, "@", name);
  }

  /**
   * Two mentions separated by plain text: the tokens are the two names, in
   * order, whatever text surrounds them.
   */
  lemma TwoMentions(before: string, a: string, between: string, b: string, after: string)
    requires NoAt(before) && NoAt(between) && NoAt(after)
    requires IsWord(a) && IsWord(b)
    requires between == [] || !IsWordChar(between[0])
    requires after == [] || !IsWordChar(after[0])
    ensures FindMentions(before + "@" + a + between + "@" + b + after) == [a, b]
  {
    NoAtNoMentions(after);
    MentionAfterText(between, b, after);
    var rest := between + "@" + b + after;
    assert rest == [] || !IsWordChar(rest[0]) by {
      if between == [] {
        assert rest[0] == '@';
      } else {
        assert rest[0] == between[0];
      }
    }
    MentionAfterText(before, a, rest);
    var x := before + "@" + a;
    Associate(x + between + "@", b, after);
    Associate(x + between, "@", b + after);
    Associate(x, between, "@" + (b + after));
    Associate(between + "@", b, after);
    Associate(between, "@", b + after);
  }

  /** The worked example: `Hey @bob, @charlie check this` mentions bob and charlie. */
  lemma TwoMentionsExample()
    ensures FindMentions("Hey @bob, @charlie check this") == ["bob", "charlie"]
  {
    var before, between, after := "Hey ", ", ", " check this";
    assert before + "@" + "bob" + between + "@" + "charlie" + after == "Hey @bob, @charlie check this";
    TwoMentions(before, "bob", between, "charlie", after);
  }

  /** An `@` not followed by a word character (an e-mail-style `@ `, a trailing `@`) captures nothing. */
  lemma BareAtIgnored(rest: string)
    requires rest == [] || !IsWordChar(rest[0])
    ensures FindMentions("@" + rest) == FindMentions(rest)
  {
    var text := "@" + rest;
    if |text| >= 2 {
      assert text[1] == rest[0];
      assert text[1..] == rest;
    }
  }
}
