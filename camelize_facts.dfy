/**
 * What the key camelizer promises: the behaviour of each pass, the
 * camelBack rule for the first character, a snake_case inverse that undoes
 * it on snake_case identifiers, and the namespace reading of slashes.
 */
module CamelizeFacts {
  import opened RubyValues
  import opened KeyCamelizer

  // ---------------------------------------------------------------------
  // Pass 1 and the first character

  /**
   * At a line start the first character is upper-cased on its own, and the
   * rest of the string is scanned from index 1, where `^` matches only if
   * that first character was a newline.
   */
  lemma {:induction false} FirstCharThenRest(s: string)
    requires |s| > 0
    ensures CamelizeUnderscores(s, true) ==
              [Upcase(s[0])] + CamelizeUnderscores(s[1..], s[0] == '\n')
  {
  }

  /**
   * camelBack (`first_upper` off): the key's own first character, followed
   * by the underscore pass of the rest (then the slash pass, if enabled).
   */
  lemma {:induction false} CamelBackKeepsFirstChar(word: string, o: Options)
    requires !o.firstUpper && |word| > 0
    ensures var w := [word[0]] + CamelizeUnderscores(word[1..], word[0] == '\n');
            Camelize(word, o) == Ok(if o.ignoreSlash then w else NamespaceSlashes(w))
  {
    FirstCharThenRest(word);
  }

  /** A prefix with no underscore and no newline is copied through by pass 1. */
  lemma {:induction false} UnderscorePrefix(a: string, x: string)
    requires '_' !in a && '\n' !in a
    ensures CamelizeUnderscores(a + x, false) == a + CamelizeUnderscores(x, false)
  {
    if a != [] {
      assert (a + x)[1..] == a[1..] + x;
      UnderscorePrefix(a[1..], x);
    } else {
      assert a + x == x;
    }
  }

  /** A string with no underscore and no newline is left alone away from a line start. */
  lemma {:induction false} NoUnderscoreUnchanged(s: string)
    requires '_' !in s && '\n' !in s
    ensures CamelizeUnderscores(s, false) == s
  {
    UnderscorePrefix(s, []);
    assert s + [] == s;
  }

  /** A string with no slash is left alone by the slash pass. */
  lemma {:induction false} NoSlashUnchanged(s: string)
    requires '/' !in s
    ensures NamespaceSlashes(s) == s
  {
    if s != [] {
      NoSlashUnchanged(s[1..]);
    }
  }

  /**
   * A key with no underscore, slash or newline (such as "With Spaces")
   * comes back unchanged in camelBack, and with only its first character
   * upper-cased with `first_upper`.
   */
  lemma {:induction false} CamelizeWithoutSeparators(word: string, o: Options)
    requires |word| > 0 && '_' !in word && '/' !in word && '\n' !in word
    ensures Camelize(word, o) == Ok(if o.firstUpper then [Upcase(word[0])] + word[1..] else word)
  {
    var w := if o.firstUpper then [Upcase(word[0])] + word[1..] else word;
    assert w == if o.firstUpper then CamelizeUnderscores(word, true)
                else [word[0]] + CamelizeUnderscores(word, true)[1..] by {
      FirstCharThenRest(word);
      NoUnderscoreUnchanged(word[1..]);
      assert [word[0]] + word[1..] == word;
    }
    CamelizeOfPassOne(word, o, w);
    assert '/' !in w by {
      if o.firstUpper { assert w[0] == Upcase(word[0]) && w[1..] == word[1..]; }
    }
    NoSlashUnchanged(w);
  }

  // ---------------------------------------------------------------------
  // A snake_case inverse

  function Downcase(c: char): (d: char)
    ensures IsUpper(c) ==> IsLower(d) && d as int == c as int + 32
    ensures !IsUpper(c) ==> d == c
  {
    if IsUpper(c) then (c as int + 32) as char else c
  }

  /** Every upper-case letter becomes `_` and its lower-case form. */
  function Underscore(s: string): (r: string)
    ensures |r| >= |s|
  {
    if s == [] then []
    else (if IsUpper(s[0]) then ['_', Downcase(s[0])] else [s[0]]) + Underscore(s[1..])
  }

  /** The inverse of camelize on snake_case identifiers, for either option. */
  function Decamelize(s: string): (r: string)
    ensures |r| >= |s|
  {
    if s == [] then [] else [Downcase(s[0])] + Underscore(s[1..])
  }

  predicate IsSnakeChar(c: char) { IsLower(c) || '0' <= c <= '9' || c == '_' }

  /** Snake characters, and every underscore followed by a lower-case letter. */
  ghost predicate IsSnakeTail(t: string)
  {
    && (forall i :: 0 <= i < |t| ==> IsSnakeChar(t[i]))
    && (forall i :: 0 <= i < |t| && t[i] == '_' ==> i + 1 < |t| && IsLower(t[i + 1]))
  }

  /** A snake_case identifier such as `first_key` or `vegetable_types2`. */
  ghost predicate IsSnakeWord(w: string)
  {
    |w| > 0 && IsLower(w[0]) && IsSnakeTail(w[1..])
  }

  /** A snake tail stays one after dropping a prefix that does not end in `_`. */
  lemma {:induction false} SnakeTailDrop(t: string, k: nat)
    requires IsSnakeTail(t) && k <= |t| && (k > 0 ==> t[k - 1] != '_')
    ensures IsSnakeTail(t[k..])
  {
    var u := t[k..];
    forall i | 0 <= i < |u| && u[i] == '_'
      ensures i + 1 < |u| && IsLower(u[i + 1])
    {
      assert t[i + k] == '_';
    }
  }

  lemma {:induction false} SnakeTailRoundTrip(t: string)
    requires IsSnakeTail(t)
    ensures '/' !in CamelizeUnderscores(t, false) && '_' !in CamelizeUnderscores(t, false)
    ensures Underscore(CamelizeUnderscores(t, false)) == t
    decreases |t|
  {
    if t == [] {
    } else if t[0] == '_' {
      assert IsLower(t[1]);
      SnakeTailDrop(t, 2);
      SnakeTailRoundTrip(t[2..]);
      var c := CamelizeUnderscores(t, false);
      assert c == [Upcase(t[1])] + CamelizeUnderscores(t[2..], false);
      assert Underscore(c) == t by {
        assert c[1..] == CamelizeUnderscores(t[2..], false);
        assert Underscore(c) == ['_', t[1]] + t[2..];
        assert t == ['_', t[1]] + t[2..];
      }
    } else {
      assert IsSnakeChar(t[0]);
      SnakeTailDrop(t, 1);
      SnakeTailRoundTrip(t[1..]);
      var c := CamelizeUnderscores(t, false);
      assert c == [t[0]] + CamelizeUnderscores(t[1..], false);
      assert Underscore(c) == t by {
        assert c[1..] == CamelizeUnderscores(t[1..], false);
        assert Underscore(c) == [t[0]] + t[1..];
        assert t == [t[0]] + t[1..];
      }
    }
  }

  /**
   * Camelizing a snake_case identifier, with any options, loses nothing:
   * the result has no underscore left, and Decamelize gives the key back.
   */
  lemma {:induction false} SnakeRoundTrip(w: string, o: Options)
    requires IsSnakeWord(w)
    ensures Camelize(w, o).Ok?
    ensures '_' !in Camelize(w, o).value
    ensures Decamelize(Camelize(w, o).value) == w
  {
    FirstCharThenRest(w);
    SnakeTailRoundTrip(w[1..]);
    var tail := CamelizeUnderscores(w[1..], false);
    var c := if o.firstUpper then Upcase(w[0]) else w[0];
    var x := [c] + tail;
    assert '/' !in x && '_' !in x;
    NoSlashUnchanged(x);
    assert Camelize(w, o) == Ok(x);
    assert x[1..] == tail;
    assert Decamelize(x) == [w[0]] + w[1..];
    assert [w[0]] + w[1..] == w;
  }

  /** Hence distinct snake_case identifiers never camelize to the same key. */
  lemma {:induction false} CamelizeInjective(a: string, b: string, o: Options)
    requires IsSnakeWord(a) && IsSnakeWord(b) && a != b
    ensures Camelize(a, o) != Camelize(b, o)
  {
    SnakeRoundTrip(a, o);
    SnakeRoundTrip(b, o);
  }

  // ---------------------------------------------------------------------
  // Pass 3 as namespace joining

  function JoinWith(segs: seq<string>, sep: string): (r: string)
    requires |segs| > 0
    ensures |r| >= |segs[0]|
  {
    if |segs| == 1 then segs[0] else segs[0] + sep + JoinWith(segs[1..], sep)
  }

  /** Upper-cases the first character of a segment. */
  function Capitalize(s: string): (r: string)
    ensures |r| == |s|
    ensures |s| > 0 ==> r[0] == Upcase(s[0]) && r[1..] == s[1..]
  {
    if s == [] then [] else [Upcase(s[0])] + s[1..]
  }

  function CapitalizeAll(segs: seq<string>): (r: seq<string>)
    ensures |r| == |segs|
    ensures forall i :: 0 <= i < |segs| ==> r[i] == Capitalize(segs[i])
  {
    seq(|segs|, i requires 0 <= i < |segs| => Capitalize(segs[i]))
  }

  /** Segments separated by single slashes: only the last one may be empty. */
  ghost predicate SlashSegments(segs: seq<string>)
  {
    && |segs| > 0
    && (forall i :: 0 <= i < |segs| ==> '/' !in segs[i])
    && (forall i :: 0 <= i < |segs| - 1 ==> segs[i] != [])
  }

  lemma {:induction false} SlashPassPrefix(a: string, b: string)
    requires '/' !in a
    ensures NamespaceSlashes(a + b) == a + NamespaceSlashes(b)
  {
    if a != [] {
      assert (a + b)[1..] == a[1..] + b;
      SlashPassPrefix(a[1..], b);
    } else {
      assert a + b == b;
    }
  }

  lemma {:induction false} SlashThenChar(x: string)
    requires |x| > 0 && x[0] != '/'
    ensures NamespaceSlashes("/" + x) == "::" + [Upcase(x[0])] + NamespaceSlashes(x[1..])
  {
    assert ("/" + x)[1..] == x;
    if |x| >= 1 && x[0] != '\n' {
      assert ("/" + x)[2..] == x[1..];
    }
  }

  lemma {:induction false} SlashSegmentsRest(segs: seq<string>)
    requires SlashSegments(segs) && |segs| > 1
    ensures SlashSegments(segs[1..])
  {
    var rest := segs[1..];
    forall i | 0 <= i < |rest| ensures '/' !in rest[i] { assert rest[i] == segs[i + 1]; }
    forall i | 0 <= i < |rest| - 1 ensures rest[i] != [] { assert rest[i] == segs[i + 1]; }
  }

  lemma {:induction false} SlashBeforeLastSegment(s0: string)
    requires '/' !in s0
    ensures NamespaceSlashes("/" + s0) == "::" + Capitalize(s0)
  {
    if s0 == [] {
      assert "/" + s0 == ['/'];
      assert NamespaceSlashes(['/']) == "::" + NamespaceSlashes([]);
    } else {
      assert NamespaceSlashes("/" + s0) == "::" + [Upcase(s0[0])] + s0[1..] by {
        SlashThenChar(s0);
        NoSlashUnchanged(s0[1..]);
      }
      assert Capitalize(s0) == [Upcase(s0[0])] + s0[1..];
    }
  }

  /** One segment followed by more: the inductive step of SlashBeforeSegments. */
  lemma {:induction false} SlashBeforeSegment(s0: string, t: string, tail: string)
    requires s0 != [] && '/' !in s0
    requires NamespaceSlashes("/" + t) == "::" + tail
    ensures NamespaceSlashes("/" + (s0 + "/" + t)) == "::" + (Capitalize(s0) + "::" + tail)
  {
    var x := s0 + "/" + t;
    assert x[0] == s0[0] && x[1..] == s0[1..] + ("/" + t);
    SlashThenChar(x);
    SlashPassPrefix(s0[1..], "/" + t);
    var c := [Upcase(s0[0])];
    assert NamespaceSlashes("/" + x) == "::" + c + (s0[1..] + ("::" + tail));
    assert Capitalize(s0) == c + s0[1..];
    assert "::" + c + (s0[1..] + ("::" + tail)) == "::" + (c + s0[1..] + "::" + tail);
  }

  lemma {:induction false} SlashBeforeSegments(segs: seq<string>)
    requires SlashSegments(segs)
    ensures NamespaceSlashes("/" + JoinWith(segs, "/")) == "::" + JoinWith(CapitalizeAll(segs), "::")
    decreases |segs|
  {
    var caps := CapitalizeAll(segs);
    if |segs| == 1 {
      SlashBeforeLastSegment(segs[0]);
    } else {
      var rest := segs[1..];
      SlashSegmentsRest(segs);
      SlashBeforeSegments(rest);
      SlashBeforeSegment(segs[0], JoinWith(rest, "/"), JoinWith(CapitalizeAll(rest), "::"));
      assert caps[1..] == CapitalizeAll(rest);
    }
  }

  /**
   * The slash pass reads a key as slash-separated segments: it joins them
   * with `::`, upper-casing the first character of every segment after the
   * first. A trailing slash becomes a trailing `::`.
   */
  lemma {:induction false} SlashesAsNamespaces(segs: seq<string>)
    requires SlashSegments(segs)
    ensures NamespaceSlashes(JoinWith(segs, "/")) ==
              JoinWith([segs[0]] + CapitalizeAll(segs[1..]), "::")
  {
    var ys := [segs[0]] + CapitalizeAll(segs[1..]);
    if |segs| == 1 {
      NoSlashUnchanged(segs[0]);
      assert ys == [segs[0]];
    } else {
      var rest := segs[1..];
      var t := JoinWith(rest, "/");
      SlashSegmentsRest(segs);
      assert JoinWith(segs, "/") == segs[0] + ("/" + t);
      SlashPassPrefix(segs[0], "/" + t);
      SlashBeforeSegments(rest);
      assert ys[1..] == CapitalizeAll(rest);
      calc {
        NamespaceSlashes(JoinWith(segs, "/"));
        segs[0] + ("::" + JoinWith(CapitalizeAll(rest), "::"));
        ys[0] + "::" + JoinWith(ys[1..], "::");
        JoinWith(ys, "::");
      }
    }
  }

  // ---------------------------------------------------------------------
  // Pass 1 as word joining

  /** A word of a key: non-empty, with no underscore, slash or newline. */
  ghost predicate IsWord(w: string)
  {
    |w| > 0 && '_' !in w && '/' !in w && '\n' !in w
  }

  ghost predicate AllWords(words: seq<string>)
  {
    forall i :: 0 <= i < |words| ==> IsWord(words[i])
  }

  lemma AllWordsRest(words: seq<string>)
    requires |words| > 0 && AllWords(words)
    ensures AllWords(words[1..])
  {
    var rest := words[1..];
    forall i | 0 <= i < |rest| ensures IsWord(rest[i]) { assert rest[i] == words[i + 1]; }
  }

  function Concat(ss: seq<string>): string
  {
    if ss == [] then [] else ss[0] + Concat(ss[1..])
  }

  lemma {:induction false} NoSlashSurvivesUnderscores(s: string, atLineStart: bool)
    requires '/' !in s
    ensures '/' !in CamelizeUnderscores(s, atLineStart)
    decreases |s|
  {
    if s != [] {
      NoSlashSurvivesUnderscores(s[1..], false);
      NoSlashSurvivesUnderscores(s[1..], s[0] == '\n');
      if |s| >= 2 {
        NoSlashSurvivesUnderscores(s[2..], false);
      }
    }
  }

  lemma {:induction false} UnderscoreThenWord(w: string, t: string)
    requires |w| > 0 && '_' !in w && '\n' !in w
    ensures CamelizeUnderscores("_" + (w + t), false) == Capitalize(w) + CamelizeUnderscores(t, false)
  {
    var x := "_" + (w + t);
    assert x[0] == '_' && x[1] == w[0] && x[2..] == w[1..] + t;
    UnderscorePrefix(w[1..], t);
  }

  /** At the start of a key, a leading run without underscores is capitalized as a whole. */
  lemma {:induction false} LeadingWord(w: string, t: string)
    requires |w| > 0 && '_' !in w && '\n' !in w
    ensures CamelizeUnderscores(w + t, true) == Capitalize(w) + CamelizeUnderscores(t, false)
  {
    var s := w + t;
    assert s[0] == w[0] && s[1..] == w[1..] + t;
    FirstCharThenRest(s);
    UnderscorePrefix(w[1..], t);
  }

  /** Underscore-joined words after an underscore are each capitalized; what follows is scanned on its own. */
  lemma {:induction false} UnderscoreBeforeWords(words: seq<string>, x: string)
    requires |words| > 0 && AllWords(words)
    ensures CamelizeUnderscores("_" + JoinWith(words, "_") + x, false) ==
              Concat(CapitalizeAll(words)) + CamelizeUnderscores(x, false)
    decreases |words|
  {
    if |words| == 1 {
      UnderscoreBeforeOneWord(words, x);
    } else {
      AllWordsRest(words);
      UnderscoreBeforeWords(words[1..], x);
      UnderscoreBeforeMoreWords(words, x);
    }
  }

  lemma {:induction false} UnderscoreBeforeOneWord(words: seq<string>, x: string)
    requires |words| == 1 && IsWord(words[0])
    ensures CamelizeUnderscores("_" + JoinWith(words, "_") + x, false) ==
              Concat(CapitalizeAll(words)) + CamelizeUnderscores(x, false)
  {
    var w0 := words[0];
    var caps := CapitalizeAll(words);
    assert "_" + JoinWith(words, "_") + x == "_" + (w0 + x);
    UnderscoreThenWord(w0, x);
    assert Concat(caps) == Capitalize(w0) by {
      assert caps[1..] == [];
      assert Concat(caps) == caps[0] + Concat(caps[1..]);
    }
  }

  /** The inductive step of UnderscoreBeforeWords: one more word in front. */
  lemma {:induction false} UnderscoreBeforeMoreWords(words: seq<string>, x: string)
    requires |words| > 1 && IsWord(words[0])
    requires CamelizeUnderscores("_" + JoinWith(words[1..], "_") + x, false) ==
               Concat(CapitalizeAll(words[1..])) + CamelizeUnderscores(x, false)
    ensures CamelizeUnderscores("_" + JoinWith(words, "_") + x, false) ==
              Concat(CapitalizeAll(words)) + CamelizeUnderscores(x, false)
  {
    var w0, rest := words[0], words[1..];
    var caps := CapitalizeAll(words);
    assert JoinWith(words, "_") == w0 + "_" + JoinWith(rest, "_");
    assert Concat(caps) == Capitalize(w0) + Concat(CapitalizeAll(rest)) by {
      assert caps[1..] == CapitalizeAll(rest);
      assert Concat(caps) == caps[0] + Concat(caps[1..]);
    }
    UnderscoreWordBefore(w0, JoinWith(rest, "_"), x, Concat(CapitalizeAll(rest)), CamelizeUnderscores(x, false));
  }

  lemma {:induction false} UnderscoreWordBefore(w0: string, j: string, x: string, cr: string, tail: string)
    requires IsWord(w0)
    requires CamelizeUnderscores("_" + j + x, false) == cr + tail
    ensures CamelizeUnderscores("_" + (w0 + "_" + j) + x, false) == Capitalize(w0) + cr + tail
  {
    var u := "_" + j + x;
    assert "_" + (w0 + "_" + j) + x == "_" + (w0 + u);
    UnderscoreThenWord(w0, u);
    var c0 := Capitalize(w0);
    assert c0 + (cr + tail) == c0 + cr + tail;
  }

  lemma {:induction false} NoSlashInJoin(words: seq<string>)
    requires |words| > 0 && AllWords(words)
    ensures '/' !in JoinWith(words, "_")
    decreases |words|
  {
    assert IsWord(words[0]);
    if |words| > 1 {
      var rest := words[1..];
      AllWordsRest(words);
      NoSlashInJoin(rest);
    }
  }

  /**
   * A key that starts with a run free of underscores and newlines: the run
   * becomes the lead (capitalized only with `first_upper`), the rest goes
   * through pass 1 on its own, and then the slash pass applies.
   */
  lemma {:induction false} CamelizeLeadingPiece(w0: string, t: string, o: Options)
    requires |w0| > 0 && '_' !in w0 && '\n' !in w0
    ensures var w := Lead(w0, o) + CamelizeUnderscores(t, false);
            Camelize(w0 + t, o) == Ok(if o.ignoreSlash then w else NamespaceSlashes(w))
  {
    var s := w0 + t;
    var tail := CamelizeUnderscores(t, false);
    var upper := CamelizeUnderscores(s, true);
    assert upper == Capitalize(w0) + tail by {
      LeadingWord(w0, t);
    }
    var w := Lead(w0, o) + tail;
    assert w == if o.firstUpper then upper else [s[0]] + upper[1..] by {
      if !o.firstUpper {
        assert upper[1..] == w0[1..] + tail;
        assert s[0] == w0[0];
        assert w0 + tail == [w0[0]] + (w0[1..] + tail);
      }
    }
    CamelizeOfPassOne(s, o, w);
  }

  /** Pass 1 and the camelBack rule, once their result `w` is known. */
  lemma {:induction false} CamelizeOfPassOne(word: string, o: Options, w: string)
    requires word != []
    requires w == if o.firstUpper then CamelizeUnderscores(word, true)
                  else [word[0]] + CamelizeUnderscores(word, true)[1..]
    ensures Camelize(word, o) == Ok(if o.ignoreSlash then w else NamespaceSlashes(w))
  {
  }

  /** A leading word followed by text without slashes: only the text after the word is rewritten. */
  lemma {:induction false} CamelizeWordThen(w0: string, t: string, o: Options)
    requires IsWord(w0) && '/' !in t
    ensures Camelize(w0 + t, o) == Ok(Lead(w0, o) + CamelizeUnderscores(t, false))
  {
    var w := Lead(w0, o) + CamelizeUnderscores(t, false);
    CamelizeLeadingPiece(w0, t, o);
    assert '/' !in w by {
      NoSlashSurvivesUnderscores(t, false);
      assert '/' !in Lead(w0, o) by {
        if o.firstUpper {
          assert Lead(w0, o) == [Upcase(w0[0])] + w0[1..];
        }
      }
    }
    NoSlashUnchanged(w);
  }

  /**
   * Pass 1 read as camelCase: for words joined by single underscores, the
   * result is the first word (upper-cased first with `first_upper`)
   * followed by every later word with its first character upper-cased.
   */
  lemma {:induction false} CamelizeWords(words: seq<string>, o: Options)
    requires |words| > 0 && AllWords(words)
    ensures Camelize(JoinWith(words, "_"), o) == Ok(Lead(words[0], o) + Concat(CapitalizeAll(words[1..])))
  {
    var w0 := words[0];
    assert IsWord(w0);
    if |words| == 1 {
      CamelizeWordThen(w0, [], o);
      assert w0 + [] == w0 && JoinWith(words, "_") == w0;
      assert CapitalizeAll(words[1..]) == [];
      assert Lead(w0, o) + CamelizeUnderscores([], false) == Lead(w0, o) + Concat([]);
    } else {
      var rest := words[1..];
      AllWordsRest(words);
      var t := "_" + JoinWith(rest, "_");
      assert CamelizeUnderscores(t, false) == Concat(CapitalizeAll(rest)) by {
        UnderscoreBeforeWords(rest, []);
        assert t + [] == t;
        var caps := Concat(CapitalizeAll(rest));
        assert caps + CamelizeUnderscores([], false) == caps;
      }
      assert JoinWith(words, "_") == w0 + t;
      assert '/' !in t by { NoSlashInJoin(rest); }
      CamelizeWordThen(w0, t, o);
    }
  }

  /** The first word of a camelized name: capitalized only with `first_upper`. */
  function Lead(w: string, o: Options): (r: string)
    ensures |r| == |w|
    ensures o.firstUpper ==> r == Capitalize(w)
    ensures !o.firstUpper ==> r == w
  {
    if o.firstUpper then Capitalize(w) else w
  }

  /** `_w` at the end of a name becomes `W`. */
  lemma {:induction false} UnderscoreLastWord(w: string)
    requires |w| > 0 && '_' !in w && '\n' !in w
    ensures CamelizeUnderscores("_" + w, false) == Capitalize(w)
  {
    UnderscoreThenWord(w, []);
    assert w + [] == w;
    assert Capitalize(w) + [] == Capitalize(w);
  }

  /** `a_b` gives `aB`, or `AB` with `first_upper`. */
  lemma {:induction false} TwoWords(a: string, b: string, o: Options)
    requires IsWord(a) && IsWord(b)
    ensures Camelize(a + "_" + b, o) == Ok(Lead(a, o) + Capitalize(b))
  {
    var t := "_" + b;
    assert a + "_" + b == a + t;
    CamelizeWordThen(a, t, o);
    UnderscoreLastWord(b);
  }

  /** `a_b_c` gives `aBC`, or `ABC` with `first_upper`. */
  lemma {:induction false} ThreeWords(a: string, b: string, c: string, o: Options)
    requires IsWord(a) && IsWord(b) && IsWord(c)
    ensures Camelize(a + "_" + b + "_" + c, o) == Ok(Lead(a, o) + (Capitalize(b) + Capitalize(c)))
  {
    var u := "_" + c;
    var t := "_" + (b + u);
    assert a + "_" + b + "_" + c == a + t;
    CamelizeWordThen(a, t, o);
    UnderscoreThenWord(b, u);
    UnderscoreLastWord(c);
  }

  /** `a_b_c_d` gives `aBCD`, or `ABCD` with `first_upper`. */
  lemma {:induction false} FourWords(a: string, b: string, c: string, d: string, o: Options)
    requires IsWord(a) && IsWord(b) && IsWord(c) && IsWord(d)
    ensures Camelize(a + "_" + b + "_" + c + "_" + d, o) ==
              Ok(Lead(a, o) + (Capitalize(b) + Capitalize(c) + Capitalize(d)))
  {
    var v := "_" + d;
    var u := "_" + (c + v);
    var t := "_" + (b + u);
    assert a + "_" + b + "_" + c + "_" + d == a + t;
    CamelizeWordThen(a, t, o);
    UnderscoreThenWord(b, u);
    UnderscoreThenWord(c, v);
    UnderscoreLastWord(d);
    var cb, cc, cd := Capitalize(b), Capitalize(c), Capitalize(d);
    assert cb + (cc + cd) == cb + cc + cd;
  }

  /**
   * A trailing underscore has no character after it to capture, so it
   * stays: words joined by single underscores and ending in `_` camelize as
   * they would without it, followed by the `_`.
   */
  lemma {:induction false} TrailingUnderscoreKept(words: seq<string>, o: Options)
    requires |words| > 0 && AllWords(words)
    ensures Camelize(JoinWith(words, "_") + "_", o) ==
              Ok(Lead(words[0], o) + Concat(CapitalizeAll(words[1..])) + "_")
  {
    var w0 := words[0];
    var u: string := "_";
    assert CamelizeUnderscores(u, false) == u by {
      assert u[1..] == [] && u[0] == '_' && |u| == 1;
    }
    assert IsWord(w0);
    var lead := Lead(w0, o);
    if |words| == 1 {
      assert JoinWith(words, "_") == w0;
      CamelizeWordThen(w0, u, o);
      assert CapitalizeAll(words[1..]) == [];
      assert lead + Concat([]) + u == lead + u;
    } else {
      var rest := words[1..];
      var t := "_" + JoinWith(rest, "_") + u;
      AllWordsRest(words);
      assert JoinWith(words, "_") + u == w0 + t;
      assert '/' !in t by {
        NoSlashInJoin(rest);
      }
      CamelizeWordThen(w0, t, o);
      UnderscoreBeforeWords(rest, u);
      var caps := Concat(CapitalizeAll(rest));
      assert lead + (caps + u) == lead + caps + u;
    }
  }

  // ---------------------------------------------------------------------
  // The keys the test suite uses, and the edge cases of the `^` branch

  /** `_key` at the end of a name becomes `Key`. */
  lemma {:induction false} UnderscoreKey()
    ensures CamelizeUnderscores("_key", false) == "Key"
  {
    UnderscoreThenWord("key", []);
    assert "_" + ("key" + []) == "_key";
    assert Upcase('k') == 'K';
    assert Capitalize("key") == "Key";
  }

  /** `first_key` gives `firstKey`, and `FirstKey` with `first_upper`. */
  lemma {:induction false} CamelizeFirstKey()
    ensures Camelize("first_key", Options(false, false)) == Ok("firstKey")
    ensures Camelize("first_key", Options(true, false)) == Ok("FirstKey")
  {
    assert "first" + "_key" == "first_key";
    UnderscoreKey();
    CamelizeWordThen("first", "_key", Options(false, false));
    CamelizeWordThen("first", "_key", Options(true, false));
    assert Upcase('f') == 'F';
    assert Capitalize("first") == "First";
    assert "first" + "Key" == "firstKey";
    assert "First" + "Key" == "FirstKey";
  }

  /** `second_key` gives `secondKey`. */
  lemma {:induction false} CamelizeSecondKey()
    ensures Camelize("second_key", Options(false, false)) == Ok("secondKey")
  {
    assert "second" + "_key" == "second_key";
    UnderscoreKey();
    CamelizeWordThen("second", "_key", Options(false, false));
    assert "second" + "Key" == "secondKey";
  }

  /**
   * `a_b/c`: pass 1 capitalizes `b`, and unless slashes are ignored the
   * slash becomes `::` before a capitalized `c`.
   */
  lemma {:induction false} NamespacedKey(a: string, b: string, c: string, o: Options)
    requires IsWord(a) && IsWord(b) && IsWord(c)
    ensures var front := Lead(a, o) + Capitalize(b);
            Camelize(a + "_" + b + "/" + c, o) ==
              Ok(if o.ignoreSlash then front + "/" + c else front + "::" + Capitalize(c))
  {
    var front := Lead(a, o) + Capitalize(b);
    PassOneBeforeSlash(a, b, c, o);
    if !o.ignoreSlash {
      assert '/' !in front by {
        if o.firstUpper {
          assert Lead(a, o) == [Upcase(a[0])] + a[1..];
        }
      }
      SlashBeforeLast(front, c);
    }
  }

  lemma {:induction false} PassOneBeforeSlash(a: string, b: string, c: string, o: Options)
    requires IsWord(a) && IsWord(b) && IsWord(c)
    ensures var w := Lead(a, o) + Capitalize(b) + "/" + c;
            Camelize(a + "_" + b + "/" + c, o) == Ok(if o.ignoreSlash then w else NamespaceSlashes(w))
  {
    var t := "_" + (b + "/" + c);
    var lead, cb := Lead(a, o), Capitalize(b);
    assert lead + CamelizeUnderscores(t, false) == lead + cb + "/" + c by {
      UnderscoreBeforeSlash(b, c);
      assert lead + (cb + "/" + c) == lead + cb + "/" + c;
    }
    assert a + "_" + b + "/" + c == a + t;
    CamelizeLeadingPiece(a, t, o);
  }

  lemma {:induction false} UnderscoreBeforeSlash(b: string, c: string)
    requires IsWord(b) && IsWord(c)
    ensures CamelizeUnderscores("_" + (b + "/" + c), false) == Capitalize(b) + "/" + c
  {
    var x := b + "/" + c;
    assert '_' !in x && '\n' !in x;
    UnderscoreLastWord(x);
    assert x[0] == b[0] && x[1..] == b[1..] + "/" + c;
  }

  lemma {:induction false} SlashBeforeLast(front: string, c: string)
    requires '/' !in front && '/' !in c
    ensures NamespaceSlashes(front + "/" + c) == front + "::" + Capitalize(c)
  {
    assert front + "/" + c == front + ("/" + c);
    SlashPassPrefix(front, "/" + c);
    SlashBeforeLastSegment(c);
    assert front + ("::" + Capitalize(c)) == front + "::" + Capitalize(c);
  }

  lemma {:induction false} SlashKeyPieces()
    ensures "my" + "_" + "first" + "/" + "key" == "my_first/key"
    ensures Capitalize("first") == "First" && Capitalize("key") == "Key"
  {
    assert "my" + "_" + "first" == "my_first";
    assert "my_first" + "/" + "key" == "my_first/key";
  }

  /** `my_first/key` gives `myFirst::Key`. */
  lemma {:induction false} CamelizeSlashKey()
    ensures Camelize("my_first/key", Options(false, false)) == Ok("myFirst::Key")
  {
    NamespacedKey("my", "first", "key", Options(false, false));
    SlashKeyPieces();
    assert "my" + "First" == "myFirst";
    assert "myFirst" + "::" + "Key" == "myFirst::Key";
  }

  /** With `ignore_slash`, `my_first/key` gives `myFirst/key`. */
  lemma {:induction false} CamelizeSlashKeyIgnored()
    ensures Camelize("my_first/key", Options(false, true)) == Ok("myFirst/key")
  {
    NamespacedKey("my", "first", "key", Options(false, true));
    SlashKeyPieces();
    assert "my" + "First" == "myFirst";
    assert "myFirst" + "/" + "key" == "myFirst/key";
  }

  /** `With Spaces` comes back unchanged whatever the options. */
  lemma {:induction false} CamelizeSpacesKey(o: Options)
    ensures Camelize("With Spaces", o) == Ok("With Spaces")
  {
    var s := "With Spaces";
    CamelizeWithoutSeparators(s, o);
    assert Upcase(s[0]) == s[0];
    assert [s[0]] + s[1..] == s;
  }

  /**
   * The `^` alternative consumes the first character even when it is an
   * underscore: `_foo` stays `_foo`, while `__foo` becomes `_Foo`.
   */
  lemma {:induction false} CamelizeLeadingUnderscores()
    ensures Camelize("_foo", Options(false, false)) == Ok("_foo")
    ensures Camelize("__foo", Options(false, false)) == Ok("_Foo")
  {
    NoUnderscoreUnchanged("foo");
    assert CamelizeUnderscores("_foo", true) == "_foo";
    NoSlashUnchanged("_foo");
    assert "__foo"[1..] == "_foo" && "_foo"[2..] == "oo";
    NoUnderscoreUnchanged("oo");
    assert CamelizeUnderscores("__foo", true) == "_Foo";
    NoSlashUnchanged("_Foo");
  }
}
