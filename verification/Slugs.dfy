/**
 Project slugs. Slugification lowers the text, replaces every run of other characters by one
 underscore and strips the underscores at the ends; what it keeps are the words of the text.
 */
module Slugs {
  import opened Wrappers
  import Collections
  import opened Strings

  const DEFAULT_PROJECT_SLUG := "default_project"

  predicate IsSlugChar(c: char) {
    'a' <= c <= 'z' || '0' <= c <= '9'
  }

  /**
   Lower-casing, as far as it can put a letter of the slug alphabet into the text: besides the
   ASCII capitals that is the Kelvin sign and the capital I with a dot. Every other character
   ends up outside the alphabet either way.
   */
  function LowerChar(c: char): string {
    if 'A' <= c <= 'Z' then [c + ('a' - 'A')]
    else if c == '\U{212A}' then "k"
    else if c == '\U{130}' then "i\U{307}"
    else [c]
  }

  function Lower(s: string): string {
    if s == "" then "" else LowerChar(s[0]) + Lower(s[1..])
  }

  predicate IsSpace(c: char) {
    '\U{9}' <= c <= '\U{D}' || '\U{1C}' <= c <= ' ' || c == '\U{85}' || c == '\U{A0}' || c == '\U{1680}'
    || '\U{2000}' <= c <= '\U{200A}' || c == '\U{2028}' || c == '\U{2029}' || c == '\U{202F}'
    || c == '\U{205F}' || c == '\U{3000}'
  }

  function StripLeft(s: string, drop: char -> bool): string {
    if s != "" && drop(s[0]) then StripLeft(s[1..], drop) else s
  }

  function StripRight(s: string, drop: char -> bool): string {
    if s != "" && drop(s[|s| - 1]) then StripRight(s[..|s| - 1], drop) else s
  }

  function Strip(s: string, drop: char -> bool): string {
    StripRight(StripLeft(s, drop), drop)
  }

  /** The rest of the text after the run of other characters it starts with. */
  function DropRun(s: string): (rest: string)
    ensures |rest| <= |s|
    ensures rest == "" || IsSlugChar(rest[0])
  {
    if s != "" && !IsSlugChar(s[0]) then DropRun(s[1..]) else s
  }

  /** Every maximal run of other characters becomes one underscore. */
  function Collapse(s: string): string
    decreases |s|
  {
    if s == "" then ""
    else if IsSlugChar(s[0]) then [s[0]] + Collapse(s[1..])
    else "_" + Collapse(DropRun(s[1..]))
  }

  const IsUnderscore: char -> bool := c => c == '_'

  function Slugify(value: Option<string>): string {
    match value
    case None => ""
    case Some(text) =>
      var cleaned := Strip(Collapse(Lower(Strip(text, IsSpace))), IsUnderscore);
      if cleaned == "" then "unnamed" else cleaned
  }

  function NormalizeProjectSlug(value: string): string {
    if value == "" then DEFAULT_PROJECT_SLUG else Slugify(Some(value))
  }

  // ---------- The words of a text ----------

  function WordLength(s: string): (n: nat)
    ensures n <= |s|
    ensures forall i | 0 <= i < n :: IsSlugChar(s[i])
    ensures n < |s| ==> !IsSlugChar(s[n])
  {
    if s == "" || !IsSlugChar(s[0]) then 0 else 1 + WordLength(s[1..])
  }

  /** The maximal runs of slug characters, in order. */
  function Words(s: string): (words: seq<string>)
    ensures forall w | w in words :: IsWord(w)
    decreases |s|
  {
    if s == "" then []
    else if !IsSlugChar(s[0]) then Words(s[1..])
    else [s[..WordLength(s)]] + Words(s[WordLength(s)..])
  }

  predicate IsWord(w: string) {
    w != "" && forall i | 0 <= i < |w| :: IsSlugChar(w[i])
  }

  /** A slug: words joined by single underscores. */
  ghost predicate IsSlug(s: string) {
    exists words: seq<string> :: words != [] && (forall w | w in words :: IsWord(w)) && s == Join("_", words)
  }

  lemma {:induction false} CollapseWord(s: string)
    ensures Collapse(s) == s[..WordLength(s)] + Collapse(s[WordLength(s)..])
  {
    if s == "" || !IsSlugChar(s[0]) {
      assert s[0..] == s;
    } else {
      CollapseWord(s[1..]);
      var n := WordLength(s);
      var word, rest := s[1..][..n - 1], s[1..][n - 1..];
      assert rest == s[n..] && [s[0]] + word == s[..n];
      assert [s[0]] + (word + Collapse(rest)) == [s[0]] + word + Collapse(rest);
    }
  }

  lemma {:induction false} WordsDropRun(s: string)
    ensures Words(DropRun(s)) == Words(s)
  {
    if s != "" && !IsSlugChar(s[0]) {
      WordsDropRun(s[1..]);
    }
  }

  lemma {:induction false} StripRightKeeps(a: string, b: string, drop: char -> bool)
    requires StripRight(b, drop) != ""
    ensures StripRight(a + b, drop) == a + StripRight(b, drop)
    decreases |b|
  {
    if drop(b[|b| - 1]) {
      StripRightKeeps(a, b[..|b| - 1], drop);
      assert (a + b)[..|a + b| - 1] == a + b[..|b| - 1];
    }
  }

  /** The first word, and what is left after the run of other characters behind it. */
  lemma FirstWord(s: string) returns (word: string, next: string)
    requires s != "" && IsSlugChar(s[0])
    ensures IsWord(word) && |word| + |next| <= |s| && (next != "" ==> IsSlugChar(next[0]))
    ensures Words(s) == [word] + Words(next)
    ensures Collapse(s) == word || Collapse(s) == word + ("_" + Collapse(next))
    ensures Collapse(s) == word ==> next == ""
  {
    var n := WordLength(s);
    word, next := s[..n], s[n..];
    CollapseWord(s);
    if next == "" {
      assert word + "" == word;
    } else {
      WordsDropRun(next[1..]);
      next := DropRun(next[1..]);
    }
  }

  /** From the first word on, the collapsed text is the words joined, up to an underscore at the end. */
  lemma {:induction false} CollapseJoins(s: string)
    requires s != "" && IsSlugChar(s[0])
    ensures Words(s) != [] && StripRight(Collapse(s), IsUnderscore) == Join("_", Words(s)) != ""
    decreases |s|
  {
    hide Collapse, Words;
    var word, next := FirstWord(s);
    assert StripRight(word, IsUnderscore) == word;
    if next == "" {
      NoWords();
      assert "_" + "" == "_" && (word + "_")[..|word|] == word;
    } else {
      CollapseJoins(next);
      var tail := Collapse(next);
      StripRightKeeps("_", tail, IsUnderscore);
      StripRightKeeps(word, "_" + tail, IsUnderscore);
      JoinCons(word, Words(next));
    }
  }

  lemma NoWords()
    ensures Words("") == [] && Collapse("") == ""
  {
  }

  lemma JoinCons(word: string, words: seq<string>)
    requires words != []
    ensures Join("_", [word] + words) == word + ("_" + Join("_", words))
  {
    assert ([word] + words)[1..] == words;
  }

  /** Slugification keeps exactly the words of the lowered text, joined by single underscores. */
  lemma StripCollapse(s: string)
    ensures Strip(Collapse(s), IsUnderscore) == Join("_", Words(s))
    ensures Words(s) == [] <==> Join("_", Words(s)) == ""
  {
    if s != "" && IsSlugChar(s[0]) {
      CollapseJoins(s);
    } else if s != "" {
      var next := DropRun(s[1..]);
      WordsDropRun(s[1..]);
      assert Collapse(s)[1..] == Collapse(next);
      if next != "" {
        CollapseJoins(next);
      }
    }
  }

  /** What stripping takes away: the characters to drop at both ends, and nothing else. */
  lemma StripSplits(s: string, drop: char -> bool) returns (front: string, back: string)
    ensures s == front + Strip(s, drop) + back
    ensures (forall c | c in front :: drop(c)) && (forall c | c in back :: drop(c))
    ensures var r := Strip(s, drop); r != "" ==> !drop(r[0]) && !drop(r[|r| - 1])
  {
    front := StripLeftSplits(s, drop);
    back := StripRightSplits(StripLeft(s, drop), drop);
    var left, r := StripLeft(s, drop), Strip(s, drop);
    assert front + (r + back) == front + r + back;
    assert r != "" ==> r[0] == left[0];
  }

  lemma {:induction false} StripLeftSplits(s: string, drop: char -> bool) returns (front: string)
    ensures s == front + StripLeft(s, drop) && forall c | c in front :: drop(c)
    ensures var r := StripLeft(s, drop); r != "" ==> !drop(r[0])
  {
    front := "";
    if s != "" && drop(s[0]) {
      front := StripLeftSplits(s[1..], drop);
      front := [s[0]] + front;
    }
  }

  lemma {:induction false} StripRightSplits(s: string, drop: char -> bool) returns (back: string)
    ensures s == StripRight(s, drop) + back && forall c | c in back :: drop(c)
    ensures var r := StripRight(s, drop); r != "" ==> !drop(r[|r| - 1])
  {
    back := "";
    if s != "" && drop(s[|s| - 1]) {
      back := StripRightSplits(s[..|s| - 1], drop);
      back := back + [s[|s| - 1]];
    }
  }

  lemma {:induction false} LowerConcat(a: string, b: string)
    ensures Lower(a + b) == Lower(a) + Lower(b)
  {
    if a == "" {
      assert a + b == b;
    } else {
      hide LowerChar;
      LowerConcat(a[1..], b);
      assert (a + b)[1..] == a[1..] + b;
      Collections.ConcatIsAssociative(LowerChar(a[0]), Lower(a[1..]), Lower(b));
    }
  }

  lemma {:induction false} LowerSpaces(s: string)
    requires forall c | c in s :: IsSpace(c)
    ensures forall c | c in Lower(s) :: !IsSlugChar(c)
  {
    if s != "" {
      LowerSpaces(s[1..]);
      assert s[0] in s;
      assert LowerChar(s[0]) == [s[0]] && !IsSlugChar(s[0]);
    }
  }

  /** Characters that are no words do not matter at the ends of a text. */
  lemma {:induction false} WordsBehind(front: string, s: string)
    requires forall c | c in front :: !IsSlugChar(c)
    ensures Words(front + s) == Words(s)
  {
    if front == "" {
      assert front + s == s;
    } else {
      WordsBehind(front[1..], s);
      assert (front + s)[1..] == front[1..] + s;
    }
  }

  lemma {:induction false} WordsBefore(s: string, back: string)
    requires forall c | c in back :: !IsSlugChar(c)
    ensures Words(s + back) == Words(s)
    decreases |s|
  {
    if s == "" {
      WordsBehind(back, "");
      assert back + "" == back && s + back == back;
    } else if !IsSlugChar(s[0]) {
      WordsBefore(s[1..], back);
      assert (s + back)[1..] == s[1..] + back;
    } else {
      var n := WordLength(s);
      var word, rest := s[..n], s[n..];
      assert s + back == word + (rest + back);
      assert IsWord(word);
      WordAtFront(word, rest);
      WordAtFront(word, rest + back);
      assert word + rest == s;
      WordsBefore(rest, back);
    }
  }

  lemma SpacesDoNotMatter(text: string)
    ensures Words(Lower(Strip(text, IsSpace))) == Words(Lower(text))
  {
    var front, back := StripSplits(text, IsSpace);
    var middle := Strip(text, IsSpace);
    LowerSpaces(front);
    LowerSpaces(back);
    LowerConcat(front + middle, back);
    LowerConcat(front, middle);
    assert Lower(text) == Lower(front) + Lower(middle) + Lower(back);
    WordsBefore(Lower(front) + Lower(middle), Lower(back));
    WordsBehind(Lower(front), Lower(middle));
  }

  /** A slug is the words of the lowered text, joined by single underscores. */
  lemma SlugifyWords(text: string)
    ensures var words := Words(Lower(text));
            Slugify(Some(text)) == if words == [] then "unnamed" else Join("_", words)
  {
    StripCollapse(Lower(Strip(text, IsSpace)));
    SpacesDoNotMatter(text);
  }

  /** The same letter, in either case of the ASCII alphabet. */
  predicate SameLetter(c: char, d: char) {
    || c == d
    || ('a' <= c <= 'z' && d as int == c as int - 32)
    || ('a' <= d <= 'z' && c as int == d as int - 32)
  }

  /** Texts that differ in case only have one slug. */
  lemma CaseDoesNotMatter(a: string, b: string)
    requires |a| == |b| && forall i | 0 <= i < |a| :: SameLetter(a[i], b[i])
    ensures Slugify(Some(a)) == Slugify(Some(b))
  {
    LowerAlike(a, b);
    SlugifyWords(a);
    SlugifyWords(b);
  }

  lemma {:induction false} LowerAlike(a: string, b: string)
    requires |a| == |b| && forall i | 0 <= i < |a| :: SameLetter(a[i], b[i])
    ensures Lower(a) == Lower(b)
  {
    if a != "" {
      assert SameLetter(a[0], b[0]);
      assert LowerChar(a[0]) == LowerChar(b[0]);
      LowerAlike(a[1..], b[1..]);
    }
  }

  predicate SlugText(s: string) {
    forall i | 0 <= i < |s| :: IsSlugChar(s[i]) || s[i] == '_'
  }

  lemma {:induction false} LowerKeeps(s: string)
    requires SlugText(s)
    ensures Lower(s) == s
  {
    if s != "" {
      LowerKeeps(s[1..]);
    }
  }

  lemma {:induction false} JoinedWords(words: seq<string>)
    requires words != [] && forall w | w in words :: IsWord(w)
    ensures Words(Join("_", words)) == words
  {
    var word := words[0];
    assert IsWord(word);
    if |words| == 1 {
      WordAtFront(word, "");
      assert word + "" == word;
    } else {
      var rest := "_" + Join("_", words[1..]);
      JoinedWords(words[1..]);
      WordAtFront(word, rest);
      assert Join("_", words) == word + rest;
      assert rest[1..] == Join("_", words[1..]);
    }
  }

  predicate SingleUnderscores(s: string) {
    forall i | 0 <= i < |s| - 1 :: s[i] == '_' ==> s[i + 1] != '_'
  }

  lemma {:induction false} JoinedShape(words: seq<string>)
    requires words != [] && forall w | w in words :: IsWord(w)
    ensures var s := Join("_", words);
            && SlugText(s) && s != "" && IsSlugChar(s[0]) && IsSlugChar(s[|s| - 1]) && SingleUnderscores(s)
  {
    var word := words[0];
    assert IsWord(word);
    if |words| > 1 {
      JoinedShape(words[1..]);
      UnderscoreBetween(word, Join("_", words[1..]));
    }
  }

  lemma UnderscoreBetween(word: string, rest: string)
    requires IsWord(word)
    requires SlugText(rest) && rest != "" && IsSlugChar(rest[0]) && SingleUnderscores(rest)
    ensures SlugText(word + "_" + rest) && SingleUnderscores(word + "_" + rest)
  {
    var s := word + "_" + rest;
    forall i | 0 <= i < |s| - 1 && s[i] == '_'
      ensures s[i + 1] != '_'
    {
      if i > |word| {
        assert s[i] == rest[i - |word| - 1] && s[i + 1] == rest[i - |word|];
      }
    }
  }

  lemma {:induction false} WordAtFront(word: string, rest: string)
    requires IsWord(word) && (rest == "" || !IsSlugChar(rest[0]))
    ensures Words(word + rest) == [word] + Words(rest)
  {
    WordLengthAtFront(word, rest);
    assert (word + rest)[..|word|] == word && (word + rest)[|word|..] == rest;
  }

  lemma {:induction false} WordLengthAtFront(word: string, rest: string)
    requires (forall i | 0 <= i < |word| :: IsSlugChar(word[i])) && (rest == "" || !IsSlugChar(rest[0]))
    ensures WordLength(word + rest) == |word|
  {
    if word != "" {
      WordLengthAtFront(word[1..], rest);
      assert (word + rest)[1..] == word[1..] + rest;
    } else {
      assert word + rest == rest;
    }
  }

  /** The slug of any text is a slug, and slugs are exactly the texts slugification leaves alone. */
  lemma SlugifyFixesSlugs(text: string)
    ensures IsSlug(Slugify(Some(text)))
    ensures Slugify(Some(text)) == text <==> IsSlug(text)
  {
    SlugifyWords(text);
    var words := Words(Lower(text));
    if words == [] {
      assert IsWord("unnamed");
      assert Join("_", ["unnamed"]) == "unnamed";
      assert forall w | w in ["unnamed"] :: IsWord(w);
    }
    if IsSlug(text) {
      SlugUnchanged(text);
    }
  }

  lemma SlugUnchanged(slug: string)
    requires IsSlug(slug)
    ensures Slugify(Some(slug)) == slug
  {
    var words: seq<string> :| words != [] && (forall w | w in words :: IsWord(w)) && slug == Join("_", words);
    JoinedWords(words);
    JoinedShape(words);
    assert Strip(slug, IsSpace) == slug;
    LowerKeeps(slug);
    SlugifyWords(slug);
  }

  /** The output alphabet and where underscores may stand. */
  lemma SlugShape(text: string)
    ensures var s := Slugify(Some(text));
            && s != "" && SlugText(s)
            && s[0] != '_' && s[|s| - 1] != '_'
            && SingleUnderscores(s)
  {
    SlugifyFixesSlugs(text);
    var s := Slugify(Some(text));
    var words: seq<string> :| words != [] && (forall w | w in words :: IsWord(w)) && s == Join("_", words);
    JoinedShape(words);
  }

  lemma SlugifyIdempotent(text: string)
    ensures Slugify(Some(Slugify(Some(text)))) == Slugify(Some(text))
  {
    SlugifyFixesSlugs(text);
    SlugUnchanged(Slugify(Some(text)));
  }

  /** Normalising a project name again, as building a path does, changes nothing. */
  lemma NormalizeIdempotent(name: string)
    ensures NormalizeProjectSlug(NormalizeProjectSlug(name)) == NormalizeProjectSlug(name) != ""
    ensures NormalizeProjectSlug(name) == if name == "" then "default_project" else Slugify(Some(name))
  {
    if name == "" {
      DefaultIsSlug();
    } else {
      SlugifyIdempotent(name);
      SlugShape(name);
    }
  }

  lemma DefaultIsSlug()
    ensures Slugify(Some(DEFAULT_PROJECT_SLUG)) == DEFAULT_PROJECT_SLUG
  {
    var words := ["default", "project"];
    assert IsWord("default") && IsWord("project");
    assert words[1..] == ["project"];
    assert Join("_", words) == "default" + "_" + "project" == DEFAULT_PROJECT_SLUG;
    SlugUnchanged(DEFAULT_PROJECT_SLUG);
  }
}
