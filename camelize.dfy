/**
 * The key camelizer `camelize(snake_word, options)`: three passes over the
 * characters of a key.
 *   1. `gsub(/(^|_)(.)/) { $2.upcase }` — at the start of every line, and
 *      after every underscore, the next character is upper-cased (the
 *      underscore is dropped);
 *   2. unless `first_upper`, the first character is put back as it was;
 *   3. unless `ignore_slash`, `gsub(/\/(.?)/) { "::" + $1.upcase }`.
 * Upper-casing is ASCII only.
 */
module KeyCamelizer {
  import opened RubyValues

  /** The options that `camelize` reads, after defaults are merged in. */
  datatype Options = Options(firstUpper: bool, ignoreSlash: bool)

  predicate IsLower(c: char) { 'a' <= c <= 'z' }

  predicate IsUpper(c: char) { 'A' <= c <= 'Z' }

  /** `String#upcase` on one ASCII character. */
  function Upcase(c: char): (u: char)
    ensures IsLower(c) ==> IsUpper(u) && u as int == c as int - 32
    ensures !IsLower(c) ==> u == c
  {
    if IsLower(c) then (c as int - 32) as char else c
  }

  /**
   * Pass 1, `gsub(/(^|_)(.)/) { $2.upcase }`, scanning from the left.
   * `atLineStart` says whether `^` matches at the current position (the
   * start of the string, or just after a newline); `.` never matches a
   * newline. When `^` matches, the `^` alternative is taken first, so
   * the character there is consumed even when it is an underscore.
   */
  function CamelizeUnderscores(s: string, atLineStart: bool): (r: string)
    ensures |r| <= |s|
    ensures |s| > 0 ==> |r| > 0
    decreases |s|
  {
    if s == [] then []
    else if atLineStart && s[0] != '\n' then [Upcase(s[0])] + CamelizeUnderscores(s[1..], false)
    else if s[0] == '_' && |s| >= 2 && s[1] != '\n' then [Upcase(s[1])] + CamelizeUnderscores(s[2..], false)
    else [s[0]] + CamelizeUnderscores(s[1..], s[0] == '\n')
  }

  /**
   * Pass 3, `gsub!(/\/(.?)/) { "::" + $1.upcase }`: a slash and the
   * character after it (none at the end of the string or before a
   * newline) become `::` and that character upper-cased.
   */
  function NamespaceSlashes(s: string): (r: string)
    ensures |r| >= |s|
    ensures |s| > 0 && s[0] != '/' ==> |r| > 0 && r[0] == s[0]
    decreases |s|
  {
    if s == [] then []
    else if s[0] == '/' then
      if |s| >= 2 && s[1] != '\n' then "::" + [Upcase(s[1])] + NamespaceSlashes(s[2..])
      else "::" + NamespaceSlashes(s[1..])
    else [s[0]] + NamespaceSlashes(s[1..])
  }

  /** `camelize(snake_word, options)`. */
  function Camelize(word: string, o: Options): (r: Result<string>)
    ensures r.Err? <==> !o.firstUpper && word == []
    ensures r.Ok? && |word| > 0 && (o.ignoreSlash || word[0] != '/') ==>
              |r.value| > 0 && r.value[0] == if o.firstUpper then Upcase(word[0]) else word[0]
  {
    var upper := CamelizeUnderscores(word, true);
    if !o.firstUpper && word == [] then Err(NoMethodError)
    else
      var w := if o.firstUpper then upper else [word[0]] + upper[1..];
      Ok(if o.ignoreSlash then w else NamespaceSlashes(w))
  }
}
