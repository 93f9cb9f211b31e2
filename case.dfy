/**
 * The Pascal-case conversion that names the struct when the attribute gives
 * no name. Words are separated by `_`; each word's first character is
 * upper-cased and the separators are dropped.
 */
module Case {

  /** ASCII upper-casing; every other character is left alone. */
  function Upper(c: char): (u: char)
    ensures c != '_' ==> u != '_'
    ensures !('a' <= u <= 'z')
  {
    if 'a' <= c <= 'z' then (c as int - 'a' as int + 'A' as int) as char else c
  }

  /** Pascal case of `s`, where `wordStart` says whether `s` begins a new word. */
  function PascalFrom(s: string, wordStart: bool): (r: string)
    ensures '_' !in r
    ensures |r| <= |s|
    ensures wordStart && r != [] ==> Upper(r[0]) == r[0]
  {
    if s == [] then []
    else
      (if s[0] == '_' then [] else [if wordStart then Upper(s[0]) else s[0]])
      + PascalFrom(s[1..], s[0] == '_')
  }

  /** `to_case(Case::Pascal)`: `do_the_thing` becomes `DoTheThing`. */
  function ToPascal(s: string): (r: string)
    ensures '_' !in r
  {
    PascalFrom(s, true)
  }

  /** Past the first character of a word, a string without `_` is copied unchanged. */
  lemma {:induction false} PascalOfOneWord(s: string)
    requires '_' !in s
    ensures PascalFrom(s, false) == s
  {
    if s != [] {
      PascalOfOneWord(s[1..]);
    }
  }

  /** Converting a Pascal-case name again changes nothing. */
  lemma {:induction false} ToPascalIdempotent(s: string)
    ensures ToPascal(ToPascal(s)) == ToPascal(s)
  {
    var r := ToPascal(s);
    if r != [] {
      PascalOfOneWord(r[1..]);
      assert r == [r[0]] + r[1..];
    }
  }

  /** Words joined by `_`, the way Rust function names are written. */
  function JoinSnake(words: seq<string>): string
  {
    if |words| == 0 then ""
    else if |words| == 1 then words[0]
    else words[0] + "_" + JoinSnake(words[1..])
  }

  /** A word with its first character upper-cased. */
  function Capitalize(w: string): string
  {
    if w == [] then [] else [Upper(w[0])] + w[1..]
  }

  function ConcatCapitalized(words: seq<string>): string
  {
    if words == [] then "" else Capitalize(words[0]) + ConcatCapitalized(words[1..])
  }

  /** Inside a word, characters other than `_` are copied as they are. */
  lemma {:induction false} PascalInsideWord(w: string, tail: string)
    requires '_' !in w
    ensures PascalFrom(w + tail, false) == w + PascalFrom(tail, false)
  {
    if w != [] {
      assert w[0] in w && (w + tail)[0] == w[0];
      assert (w + tail)[1..] == w[1..] + tail;
      PascalInsideWord(w[1..], tail);
      var p := PascalFrom(tail, false);
      assert PascalFrom(w + tail, false) == [w[0]] + (w[1..] + p);
      assert [w[0]] + (w[1..] + p) == ([w[0]] + w[1..]) + p;
      assert [w[0]] + w[1..] == w;
    } else {
      assert w + tail == tail;
    }
  }

  /** A leading word and its `_` separator become the capitalised word. */
  lemma PascalSplitWord(w: string, rest: string)
    requires w != [] && '_' !in w
    ensures ToPascal(w + "_" + rest) == Capitalize(w) + ToPascal(rest)
  {
    assert w[0] in w;
    assert w + "_" + rest == [w[0]] + (w[1..] + ("_" + rest));
    PascalInsideWord(w[1..], "_" + rest);
    assert ("_" + rest)[1..] == rest;
  }

  /** A single word is capitalised. */
  lemma PascalOfWord(w: string)
    requires w != [] && '_' !in w
    ensures ToPascal(w) == Capitalize(w)
  {
    assert w[0] in w;
    assert w == [w[0]] + w[1..];
    PascalOfOneWord(w[1..]);
  }

  /** A snake-case name made of non-empty words becomes the words capitalised and run together. */
  lemma {:induction false} SnakeToPascal(words: seq<string>)
    requires forall i :: 0 <= i < |words| ==> words[i] != [] && '_' !in words[i]
    ensures ToPascal(JoinSnake(words)) == ConcatCapitalized(words)
  {
    if |words| == 1 {
      PascalOfWord(words[0]);
      assert ConcatCapitalized(words) == Capitalize(words[0]) + ConcatCapitalized([]);
    } else if |words| > 1 {
      var rest := words[1..];
      forall i | 0 <= i < |rest| ensures rest[i] != [] && '_' !in rest[i] {
        assert rest[i] == words[i + 1];
      }
      SnakeToPascal(rest);
      assert JoinSnake(words) == words[0] + "_" + JoinSnake(rest);
      PascalSplitWord(words[0], JoinSnake(rest));
    }
  }

  /** Joining two non-empty word lists puts one `_` between them. */
  lemma {:induction false} JoinSnakeAppend(xs: seq<string>, ys: seq<string>)
    requires xs != [] && ys != []
    ensures JoinSnake(xs + ys) == JoinSnake(xs) + "_" + JoinSnake(ys)
  {
    assert (xs + ys)[0] == xs[0];
    if |xs| > 1 {
      assert (xs + ys)[1..] == xs[1..] + ys;
      JoinSnakeAppend(xs[1..], ys);
    } else {
      assert (xs + ys)[1..] == ys;
    }
  }

  /** Capitalising and running together distributes over concatenation of word lists. */
  lemma {:induction false} ConcatCapitalizedAppend(xs: seq<string>, ys: seq<string>)
    ensures ConcatCapitalized(xs + ys) == ConcatCapitalized(xs) + ConcatCapitalized(ys)
  {
    if xs == [] {
      assert xs + ys == ys;
    } else {
      assert (xs + ys)[0] == xs[0];
      assert (xs + ys)[1..] == xs[1..] + ys;
      ConcatCapitalizedAppend(xs[1..], ys);
    }
  }

  // ---- the default names of the test functions ----
  //
  // The lemmas from here on establish `ToPascal` of the test functions' names.
  // They are small on purpose. A string literal that meets `PascalFrom` makes
  // the solver unfold the conversion character by character. So each fact is
  // stated on its own: how the words join, how literal words capitalise, and
  // how literal pieces concatenate. The general `SnakeToPascal` then ties them
  // together.

  /** A three-word name, joined in snake case and in Pascal case. */
  lemma ThreeWords(a: string, b: string, c: string)
    ensures JoinSnake([a, b, c]) == a + "_" + (b + "_" + c)
    ensures ConcatCapitalized([a, b, c]) == Capitalize(a) + (Capitalize(b) + Capitalize(c))
  {
    assert [a, b, c][1..] == [b, c];
    assert [b, c][1..] == [c];
    assert JoinSnake([b, c]) == b + "_" + JoinSnake([c]);
    assert ConcatCapitalized([c]) == Capitalize(c) + "";
    assert ConcatCapitalized([b, c]) == Capitalize(b) + ConcatCapitalized([c]);
  }

  lemma CapitalizedWords()
    ensures Capitalize("args") == "Args" && Capitalize("with") == "With" && Capitalize("return") == "Return"
    ensures Capitalize("mixed") == "Mixed" && Capitalize("and") == "And" && Capitalize("deps") == "Deps"
    ensures Capitalize("async") == "Async" && Capitalize("arg") == "Arg" && Capitalize("dep") == "Dep"
  {
  }

  lemma PascalOfUnit()
    ensures ToPascal("unit") == "Unit"
  {
    SnakeToPascal(["unit"]);
  }

  lemma ArgsWithReturnSnakeLiteral()
    ensures "args" + "_" + ("with" + "_" + "return") == "args_with_return"
  {
  }

  lemma ArgsWithReturnSnake()
    ensures JoinSnake(["args", "with", "return"]) == "args_with_return"
  {
    ThreeWords("args", "with", "return");
    ArgsWithReturnSnakeLiteral();
  }

  lemma ArgsWithReturnCapitalizedLiteral()
    ensures "Args" + ("With" + "Return") == "ArgsWithReturn"
  {
  }

  lemma ArgsWithReturnCapitalized()
    ensures ConcatCapitalized(["args", "with", "return"]) == "ArgsWithReturn"
  {
    ThreeWords("args", "with", "return");
    CapitalizedWords();
    ArgsWithReturnCapitalizedLiteral();
  }

  lemma PascalOfArgsWithReturn()
    ensures ToPascal("args_with_return") == "ArgsWithReturn"
  {
    ArgsWithReturnSnake();
    ArgsWithReturnCapitalized();
    SnakeToPascal(["args", "with", "return"]);
  }

  /** The words of a six-word name, three and three. */
  lemma SixWords(xs: seq<string>, ys: seq<string>, snake: string, pascal: string)
    requires |xs| == 3 && |ys| == 3
    requires forall i :: 0 <= i < 3 ==> xs[i] != [] && '_' !in xs[i] && ys[i] != [] && '_' !in ys[i]
    requires JoinSnake(xs) + "_" + JoinSnake(ys) == snake
    requires ConcatCapitalized(xs) + ConcatCapitalized(ys) == pascal
    ensures ToPascal(snake) == pascal
  {
    var words := xs + ys;
    JoinSnakeAppend(xs, ys);
    ConcatCapitalizedAppend(xs, ys);
    forall i | 0 <= i < |words| ensures words[i] != [] && '_' !in words[i] {
      if i >= 3 {
        assert words[i] == ys[i - 3];
      }
    }
    SnakeToPascal(words);
  }

  lemma MixedSnakeLiteral()
    ensures ("mixed" + "_" + ("args" + "_" + "and")) + "_" + ("deps" + "_" + ("with" + "_" + "return")) == "mixed_args_and_deps_with_return"
  {
  }

  lemma MixedSnake()
    ensures JoinSnake(["mixed", "args", "and"]) + "_" + JoinSnake(["deps", "with", "return"]) == "mixed_args_and_deps_with_return"
  {
    ThreeWords("mixed", "args", "and");
    ThreeWords("deps", "with", "return");
    MixedSnakeLiteral();
  }

  lemma MixedCapitalizedLiteral()
    ensures ("Mixed" + ("Args" + "And")) + ("Deps" + ("With" + "Return")) == "MixedArgsAndDepsWithReturn"
  {
  }

  lemma MixedCapitalized()
    ensures ConcatCapitalized(["mixed", "args", "and"]) + ConcatCapitalized(["deps", "with", "return"]) == "MixedArgsAndDepsWithReturn"
  {
    ThreeWords("mixed", "args", "and");
    ThreeWords("deps", "with", "return");
    CapitalizedWords();
    MixedCapitalizedLiteral();
  }

  lemma PascalOfMixedArgsAndDepsWithReturn()
    ensures ToPascal("mixed_args_and_deps_with_return") == "MixedArgsAndDepsWithReturn"
  {
    MixedSnake();
    MixedCapitalized();
    SixWords(["mixed", "args", "and"], ["deps", "with", "return"], "mixed_args_and_deps_with_return", "MixedArgsAndDepsWithReturn");
  }

  lemma AsyncSnakeLiteral()
    ensures ("async" + "_" + ("arg" + "_" + "and")) + "_" + ("dep" + "_" + ("with" + "_" + "return")) == "async_arg_and_dep_with_return"
  {
  }

  lemma AsyncSnake()
    ensures JoinSnake(["async", "arg", "and"]) + "_" + JoinSnake(["dep", "with", "return"]) == "async_arg_and_dep_with_return"
  {
    ThreeWords("async", "arg", "and");
    ThreeWords("dep", "with", "return");
    AsyncSnakeLiteral();
  }

  lemma AsyncCapitalizedLiteral()
    ensures ("Async" + ("Arg" + "And")) + ("Dep" + ("With" + "Return")) == "AsyncArgAndDepWithReturn"
  {
  }

  lemma AsyncCapitalized()
    ensures ConcatCapitalized(["async", "arg", "and"]) + ConcatCapitalized(["dep", "with", "return"]) == "AsyncArgAndDepWithReturn"
  {
    ThreeWords("async", "arg", "and");
    ThreeWords("dep", "with", "return");
    CapitalizedWords();
    AsyncCapitalizedLiteral();
  }

  lemma PascalOfAsyncArgAndDepWithReturn()
    ensures ToPascal("async_arg_and_dep_with_return") == "AsyncArgAndDepWithReturn"
  {
    AsyncSnake();
    AsyncCapitalized();
    SixWords(["async", "arg", "and"], ["dep", "with", "return"], "async_arg_and_dep_with_return", "AsyncArgAndDepWithReturn");
  }
}
