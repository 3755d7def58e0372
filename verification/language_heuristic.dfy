/** `detectLanguage` (src/utils/normalize.ts): an ordered list of regular-expression tests
    whose first match names the language. Each regular expression is written here as a
    predicate on the text that holds exactly when the expression finds a match in it. */
module LanguageHeuristic {
  import opened Common
  import opened Text

  /** The tags `detectLanguage` can return, in the order in which its tests run. */
  const Languages: seq<string> := ["cpp", "javascript", "python", "java", "sql", "rust"]

  /** `s` has the text `t` at position `i`. */
  predicate At(s: string, i: nat, t: string) {
    i + |t| <= |s| && s[i..i + |t|] == t
  }

  /** No line terminator in `s[i..j]`: what `.` may run over. */
  predicate NoLineTerminator(s: string, i: nat, j: nat)
    requires i <= j <= |s|
  {
    forall k :: i <= k < j ==> !IsLineTerminator(s[k])
  }

  /** Where `^` matches under the `m` flag: at the start, or just after a line terminator. */
  predicate IsLineStart(s: string, p: nat) {
    p <= |s| && (p == 0 || IsLineTerminator(s[p - 1]))
  }

  /** `\s+\w+\(` matches at `n`. Whitespace and word characters are disjoint and `(` is
      neither, so each run is taken whole. */
  predicate SpacedCallAt(s: string, n: nat) {
    n <= |s| &&
    var j := SkipSpaces(s, n);
    j > n &&
    var k := SkipWord(s, j);
    k > j && k < |s| && s[k] == '('
  }

  /** `\s+` followed by the text `t` matches at `n` (`t` does not start with whitespace). */
  predicate SpacedWordAt(s: string, n: nat, t: string) {
    n <= |s| &&
    var j := SkipSpaces(s, n);
    j > n && At(s, j, t)
  }

  /** `<.+?>` matches at `m`: an angle bracket, at least one character on the same line, and a
      closing bracket on that line. */
  predicate AngleTargetAt(s: string, m: nat) {
    m < |s| && s[m] == '<' &&
    exists k :: m + 2 <= k < |s| && s[k] == '>' && NoLineTerminator(s, m + 1, k)
  }

  /** `^\s*#include\s+<.+?>` under the `m` flag matches at line start `p`. */
  predicate IncludeAt(s: string, p: nat) {
    IsLineStart(s, p) &&
    var j := SkipSpaces(s, p);
    At(s, j, "#include") &&
    var m := SkipSpaces(s, j + 8);
    m > j + 8 && AngleTargetAt(s, m)
  }

  predicate HasInclude(s: string) {
    exists p :: 0 <= p <= |s| && IncludeAt(s, p)
  }

  /** `function\s+\w+\(` */
  predicate HasFunctionDecl(s: string) {
    exists i :: 0 <= i <= |s| && At(s, i, "function") && SpacedCallAt(s, i + 8)
  }

  /** `import\s+react`, matched against the lower-cased text. */
  predicate HasImportReact(lower: string) {
    exists i :: 0 <= i <= |lower| && At(lower, i, "import") && SpacedWordAt(lower, i + 6, "react")
  }

  /** `def\s+\w+\(` */
  predicate HasDef(s: string) {
    exists i :: 0 <= i <= |s| && At(s, i, "def") && SpacedCallAt(s, i + 3)
  }

  /** `\bself\b`: `self` with no word character on either side. */
  predicate SelfAt(s: string, i: nat) {
    At(s, i, "self") && (i == 0 || !IsWordChar(s[i - 1])) && (i + 4 == |s| || !IsWordChar(s[i + 4]))
  }

  predicate HasSelf(s: string) {
    exists i :: 0 <= i <= |s| && SelfAt(s, i)
  }

  /** `package\s+\w+;` */
  predicate PackageAt(s: string, i: nat) {
    At(s, i, "package") &&
    var j := SkipSpaces(s, i + 7);
    j > i + 7 &&
    var k := SkipWord(s, j);
    k > j && k < |s| && s[k] == ';'
  }

  predicate HasPackage(s: string) {
    exists i :: 0 <= i <= |s| && PackageAt(s, i)
  }

  /** `public\s+class` */
  predicate HasPublicClass(s: string) {
    exists i :: 0 <= i <= |s| && At(s, i, "public") && SpacedWordAt(s, i + 6, "class")
  }

  /** `SELECT\s+.+FROM`, upper case only: at least one whitespace character (line breaks
      included), then at least one character on one line, then `FROM`. */
  predicate SelectFromAt(s: string, i: nat) {
    At(s, i, "SELECT") &&
    exists j, k :: i + 6 < j < k && k + 4 <= |s| && AllSpace(s[i + 6..j]) &&
                   NoLineTerminator(s, j, k) && s[k..k + 4] == "FROM"
  }

  predicate HasSelectFrom(s: string) {
    exists i :: 0 <= i <= |s| && SelectFromAt(s, i)
  }

  /** `fn\s+\w+\(` */
  predicate HasFnDecl(s: string) {
    exists i :: 0 <= i <= |s| && At(s, i, "fn") && SpacedCallAt(s, i + 2)
  }

  /** `let\s+mut` */
  predicate HasLetMut(s: string) {
    exists i :: 0 <= i <= |s| && At(s, i, "let") && SpacedWordAt(s, i + 3, "mut")
  }

  /** The test for the `k`-th entry of `Languages`, as one predicate per language. */
  predicate Rule(k: nat, code: string) {
    if k == 0 then HasInclude(code) || Contains(code, "std::")
    else if k == 1 then
      HasFunctionDecl(code) || Contains(code, "=>") || Contains(code, "console.log") ||
      HasImportReact(Lower(code))
    else if k == 2 then HasDef(code) || HasSelf(code)
    else if k == 3 then HasPackage(code) || HasPublicClass(code)
    else if k == 4 then HasSelectFrom(code)
    else if k == 5 then HasFnDecl(code) || HasLetMut(code)
    else false
  }

  /** `detectLanguage(code)`: the language of the first rule in `Languages` order that the
      text satisfies, or nothing when none does. */
  function DetectLanguage(code: string): (r: Option<string>)
    ensures r.None? <==> forall k :: 0 <= k < |Languages| ==> !Rule(k, code)
    ensures r.Some? ==> exists k :: 0 <= k < |Languages| && r.value == Languages[k] && Rule(k, code) &&
                                    forall j :: 0 <= j < k ==> !Rule(j, code)
  {
    if HasInclude(code) || Contains(code, "std::") then
      assert Rule(0, code);
      Some("cpp")
    else if HasFunctionDecl(code) || Contains(code, "=>") || Contains(code, "console.log") then
      assert Rule(1, code);
      Some("javascript")
    else if HasImportReact(Lower(code)) then
      assert Rule(1, code);
      Some("javascript")
    else if HasDef(code) || HasSelf(code) then
      assert Rule(2, code);
      Some("python")
    else if HasPackage(code) || HasPublicClass(code) then
      assert Rule(3, code);
      Some("java")
    else if HasSelectFrom(code) then
      assert Rule(4, code);
      Some("sql")
    else if HasFnDecl(code) || HasLetMut(code) then
      assert Rule(5, code);
      Some("rust")
    else
      None
  }

  /** A pattern match at a position is an occurrence of its keyword. */
  lemma AtContains(s: string, i: nat, t: string)
    requires At(s, i, t)
    ensures Contains(s, t)
  {
    ContainsSlice(s, i, i + |t|);
  }

  /** Each pattern that matches holds its keyword. */
  lemma PatternKeywords(s: string)
    ensures HasInclude(s) ==> Contains(s, "#include")
    ensures HasFunctionDecl(s) ==> Contains(s, "function")
    ensures HasImportReact(s) ==> Contains(s, "import")
    ensures HasDef(s) ==> Contains(s, "def")
    ensures HasSelf(s) ==> Contains(s, "self")
    ensures HasPackage(s) ==> Contains(s, "package")
    ensures HasPublicClass(s) ==> Contains(s, "public")
    ensures HasSelectFrom(s) ==> Contains(s, "SELECT") && Contains(s, "FROM")
    ensures HasFnDecl(s) ==> Contains(s, "fn")
    ensures HasLetMut(s) ==> Contains(s, "let")
  {
    if HasInclude(s) {
      var p :| 0 <= p <= |s| && IncludeAt(s, p);
      AtContains(s, SkipSpaces(s, p), "#include");
    }
    if HasFunctionDecl(s) {
      var i :| 0 <= i <= |s| && At(s, i, "function") && SpacedCallAt(s, i + 8);
      AtContains(s, i, "function");
    }
    if HasImportReact(s) {
      var i :| 0 <= i <= |s| && At(s, i, "import") && SpacedWordAt(s, i + 6, "react");
      AtContains(s, i, "import");
    }
    if HasDef(s) {
      var i :| 0 <= i <= |s| && At(s, i, "def") && SpacedCallAt(s, i + 3);
      AtContains(s, i, "def");
    }
    if HasSelf(s) {
      var i :| 0 <= i <= |s| && SelfAt(s, i);
      AtContains(s, i, "self");
    }
    if HasPackage(s) {
      var i :| 0 <= i <= |s| && PackageAt(s, i);
      AtContains(s, i, "package");
    }
    if HasPublicClass(s) {
      var i :| 0 <= i <= |s| && At(s, i, "public") && SpacedWordAt(s, i + 6, "class");
      AtContains(s, i, "public");
    }
    if HasSelectFrom(s) {
      SelectFromKeywords(s);
    }
    if HasFnDecl(s) {
      var i :| 0 <= i <= |s| && At(s, i, "fn") && SpacedCallAt(s, i + 2);
      AtContains(s, i, "fn");
    }
    if HasLetMut(s) {
      var i :| 0 <= i <= |s| && At(s, i, "let") && SpacedWordAt(s, i + 3, "mut");
      AtContains(s, i, "let");
    }
  }

  lemma SelectFromKeywords(s: string)
    requires HasSelectFrom(s)
    ensures Contains(s, "SELECT") && Contains(s, "FROM")
  {
    var i :| 0 <= i <= |s| && SelectFromAt(s, i);
    var j, k :| i + 6 < j < k && k + 4 <= |s| && AllSpace(s[i + 6..j]) &&
                NoLineTerminator(s, j, k) && s[k..k + 4] == "FROM";
    AtContains(s, i, "SELECT");
    AtContains(s, k, "FROM");
  }

  /** Every language the heuristic names is backed by a keyword of that language in the text,
      and a text without a language holds none of the plain-text markers. */
  lemma DetectedKeywords(code: string)
    ensures var r := DetectLanguage(code);
            && (r == Some("cpp") ==> Contains(code, "#include") || Contains(code, "std::"))
            && (r == Some("javascript") ==>
                  Contains(code, "function") || Contains(code, "=>") || Contains(code, "console.log") ||
                  Contains(Lower(code), "import"))
            && (r == Some("python") ==> Contains(code, "def") || Contains(code, "self"))
            && (r == Some("java") ==> Contains(code, "package") || Contains(code, "public"))
            && (r == Some("sql") ==> Contains(code, "SELECT") && Contains(code, "FROM"))
            && (r == Some("rust") ==> Contains(code, "fn") || Contains(code, "let"))
            && (r.None? ==> !Contains(code, "std::") && !Contains(code, "=>") && !Contains(code, "console.log"))
  {
    PatternKeywords(code);
    PatternKeywords(Lower(code));
  }

  /** The tests run in a fixed order: C++ markers win over JavaScript ones, so a text with both
      `std::` and `=>` is C++. */
  lemma CppBeforeJavaScript(code: string)
    requires Contains(code, "std::") && Contains(code, "=>")
    ensures DetectLanguage(code) == Some("cpp")
  {
  }

  /** A keyword that needs a character the text lacks does not occur in it. */
  lemma MissingChar(s: string, t: string, c: char)
    requires c in t && c !in s
    ensures !Contains(s, t)
  {
    if Contains(s, t) {
      ContainsChars(s, t);
    }
  }

  /** Lower-casing cannot produce a lower-case letter whose two cases are both absent. */
  lemma MissingLowerChar(s: string, c: char)
    requires 'a' <= c <= 'z' && c !in s && (c as int - 32) as char !in s
    ensures c !in Lower(s)
  {
    var lower := Lower(s);
    forall k | 0 <= k < |lower|
      ensures lower[k] != c
    {
      assert lower[k] == LowerChar(s[k]);
    }
  }

  /** No C++ marker occurs in a text without `#` and `:`, nor in one without `#` and `t`. */
  lemma NoCppMarker(code: string, c: char)
    requires '#' !in code && (c == ':' || c == 't') && c !in code
    ensures !Rule(0, code)
  {
    PatternKeywords(code);
    MissingChar(code, "#include", '#');
    MissingChar(code, "std::", c);
  }

  /** No JavaScript marker occurs in a text that lacks `=`, a character `f` of `function`, a
      character `l` of `console.log` and both cases of a letter `i` of `import`. */
  lemma NoJavaScriptMarker(code: string, f: char, l: char, i: char)
    requires f in "function" && f !in code
    requires '=' !in code
    requires l in "console.log" && l !in code
    requires i in "import" && i !in code && (i as int - 32) as char !in code
    ensures !Rule(1, code)
  {
    PatternKeywords(code);
    PatternKeywords(Lower(code));
    MissingChar(code, "function", f);
    MissingChar(code, "=>", '=');
    MissingChar(code, "console.log", l);
    MissingLowerChar(code, i);
    MissingChar(Lower(code), "import", i);
  }

  /** `def foo(): pass` is Python: it has none of the C++ or JavaScript markers, and
      `def\s+\w+\(` matches at its start. */
  lemma PythonExample(code: string)
    requires code == "def foo(): pass"
    ensures DetectLanguage(code) == Some("python")
  {
    PythonExampleChars(code);
    NoCppMarker(code, 't');
    NoJavaScriptMarker(code, 'u', 'c', 'i');
    PythonExampleDef(code);
  }

  lemma PythonExampleChars(code: string)
    requires code == "def foo(): pass"
    ensures '#' !in code && 't' !in code && 'u' !in code && '=' !in code
    ensures 'c' !in code && 'i' !in code && 'I' !in code
  {
  }

  lemma PythonExampleDef(code: string)
    requires code == "def foo(): pass"
    ensures HasDef(code)
  {
    assert At(code, 0, "def");
    assert SkipSpaces(code, 4) == 4;
    assert SkipSpaces(code, 3) == 4;
    assert SkipWord(code, 7) == 7;
    assert SkipWord(code, 4) == 7;
    assert SpacedCallAt(code, 3);
  }

  /** `SELECT id FROM users` is SQL. */
  lemma SqlExample(code: string)
    requires code == "SELECT id FROM users"
    ensures DetectLanguage(code) == Some("sql")
  {
    SqlExampleChars(code);
    NoCppMarker(code, ':');
    NoJavaScriptMarker(code, 'f', 'c', 'p');
    SqlExampleNotPythonNorJava(code);
    SqlExampleSelectFrom(code);
  }

  lemma SqlExampleChars(code: string)
    requires code == "SELECT id FROM users"
    ensures '#' !in code && ':' !in code && 'f' !in code && '=' !in code
    ensures 'c' !in code && 'p' !in code && 'P' !in code
  {
    SqlExampleSymbols(code);
    SqlExampleLowerCase(code);
  }

  lemma SqlExampleSymbols(code: string)
    requires code == "SELECT id FROM users"
    ensures '#' !in code && ':' !in code && '=' !in code
  {
  }

  lemma SqlExampleLowerCase(code: string)
    requires code == "SELECT id FROM users"
    ensures 'f' !in code && 'c' !in code && 'p' !in code && 'P' !in code
  {
  }

  lemma SqlExampleNotPythonNorJava(code: string)
    requires code == "SELECT id FROM users"
    ensures !Rule(2, code) && !Rule(3, code)
  {
    SqlExampleChars(code);
    PatternKeywords(code);
    MissingChar(code, "def", 'f');
    MissingChar(code, "self", 'f');
    MissingChar(code, "package", 'p');
    MissingChar(code, "public", 'p');
  }

  lemma SqlExampleSelectFrom(code: string)
    requires code == "SELECT id FROM users"
    ensures HasSelectFrom(code)
  {
    assert At(code, 0, "SELECT");
    assert AllSpace(code[6..7]);
    assert NoLineTerminator(code, 7, 10);
    assert code[10..14] == "FROM";
    assert SelectFromAt(code, 0);
  }

  /** `hello` matches no test, so no language is detected. */
  lemma UndetectedExample(code: string)
    requires code == "hello"
    ensures DetectLanguage(code).None?
  {
    UndetectedChars(code);
    NoCppMarker(code, ':');
    NoJavaScriptMarker(code, 'f', 'c', 'i');
    UndetectedOthers(code);
  }

  lemma UndetectedChars(code: string)
    requires code == "hello"
    ensures '#' !in code && ':' !in code && 'f' !in code && '=' !in code
    ensures 'c' !in code && 'i' !in code && 'I' !in code
    ensures 'd' !in code && 's' !in code && 'p' !in code && 'S' !in code && 't' !in code
  {
  }

  lemma UndetectedOthers(code: string)
    requires code == "hello"
    ensures !Rule(2, code) && !Rule(3, code) && !Rule(4, code) && !Rule(5, code)
  {
    UndetectedChars(code);
    PatternKeywords(code);
    MissingChar(code, "def", 'd');
    MissingChar(code, "self", 's');
    MissingChar(code, "package", 'p');
    MissingChar(code, "public", 'p');
    MissingChar(code, "SELECT", 'S');
    MissingChar(code, "fn", 'f');
    MissingChar(code, "let", 't');
  }

  /** The SQL test is case-sensitive: the same query in lower case is not SQL. */
  lemma SqlIsCaseSensitive(code: string)
    requires code == "select id from users"
    ensures DetectLanguage(code) != Some("sql")
  {
    DetectedKeywords(code);
    MissingChar(code, "SELECT", 'S');
  }

  /** The React import test runs on the lower-cased text, so `IMPORT React` is JavaScript. */
  lemma ImportReactIgnoresCase(code: string)
    requires code == "IMPORT React"
    ensures DetectLanguage(code) == Some("javascript")
  {
    assert '#' !in code && ':' !in code;
    NoCppMarker(code, ':');
    ImportReactExampleMatches(code);
  }

  lemma ImportReactExampleMatches(code: string)
    requires code == "IMPORT React"
    ensures HasImportReact(Lower(code))
  {
    ImportReactLowered(code);
    ImportReactLowerMatches("import react");
  }

  lemma ImportReactLowered(code: string)
    requires code == "IMPORT React"
    ensures Lower(code) == "import react"
  {
    var lower := Lower(code);
    assert lower[0] == 'i' && lower[1] == 'm' && lower[2] == 'p' && lower[3] == 'o';
    assert lower[4] == 'r' && lower[5] == 't' && lower[6] == ' ' && lower[7] == 'r';
    assert lower[8] == 'e' && lower[9] == 'a' && lower[10] == 'c' && lower[11] == 't';
  }

  lemma ImportReactLowerMatches(lower: string)
    requires lower == "import react"
    ensures HasImportReact(lower)
  {
    assert lower[..6] == "import";
    assert lower[7..12] == "react";
    assert SkipSpaces(lower, 7) == 7;
    assert SkipSpaces(lower, 6) == 7;
    assert At(lower, 0, "import") && SpacedWordAt(lower, 6, "react");
  }

  /** `#include <stdio.h>` is C++. */
  lemma IncludeExample(code: string)
    requires code == "#include <stdio.h>"
    ensures DetectLanguage(code) == Some("cpp")
  {
    assert SkipSpaces(code, 0) == 0;
    assert At(code, 0, "#include");
    assert SkipSpaces(code, 9) == 9;
    assert SkipSpaces(code, 8) == 9;
    assert NoLineTerminator(code, 10, 17);
    assert code[17] == '>';
    assert AngleTargetAt(code, 9);
    assert IncludeAt(code, 0);
  }

  /** `#include` counts only at the start of a line, after optional whitespace: in a text where
      every `#` follows a character other than whitespace on its own line, the directive is
      never found. */
  lemma IncludeNeedsLineStart(s: string)
    requires forall j :: 0 <= j < |s| && s[j] == '#' ==>
               exists k :: 0 <= k < j && !IsSpace(s[k]) && NoLineTerminator(s, k, j)
    ensures !HasInclude(s)
  {
    forall p | 0 <= p <= |s|
      ensures !IncludeAt(s, p)
    {
      var j := SkipSpaces(s, p);
      if At(s, j, "#include") {
        assert s[j] == s[j..j + 8][0] == '#';
        var k :| 0 <= k < j && !IsSpace(s[k]) && NoLineTerminator(s, k, j);
        if k < p {
          assert !IsLineTerminator(s[p - 1]);
        } else {
          assert false;
        }
      }
    }
  }

  /** `#include` in the middle of a line is not found. */
  lemma IncludeMidLineExample(code: string)
    requires code == "int x; #include <a.h>"
    ensures !HasInclude(code)
  {
    assert forall k :: 0 <= k < |code| ==> !IsLineTerminator(code[k]);
    assert SkipSpaces(code, 0) == 0;
  }
}
