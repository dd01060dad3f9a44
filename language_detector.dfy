/**
 * The content-language classifier of `lib/language-detector.ts`: a first-match-wins cascade of
 * tests over the content, falling back to `plaintext`.
 *
 * Each regular expression is a `Pattern`, and `Engine.matches(p, s)` stands for `p.test(s)`;
 * `Engine.parsesJson(s)` stands for `JSON.parse(s)` not throwing. A regular expression made of
 * literal text only (a prefix or substring test) is computed here instead. An alternation
 * `/A|B/` is written as the disjunction of its branches, which is what `test` computes.
 */
module LanguageDetector {
  import opened Text

  /** `LanguageValue`, the labels the classifier can return. */
  datatype Language =
    | Plaintext | Json | Markdown | Yaml | Dockerfile | Bash | Powershell | Python
    | Tsx | Typescript | Jsx | Javascript | Sql | Html | Xml | Java | Csharp | Go | Rust
    | Ruby | Php | Swift | Kotlin | C | Cpp | Css | Scss

  /** The regular expressions of the cascade, named after what they look for. */
  datatype Pattern =
    | HeadingMarker       // one to six `#` and a space, at the start
    | LinkSyntax          // a Markdown link: bracketed text, then parenthesised text
    | MarkupTag           // `<` followed by a word character
    | BulletItem          // a `-`, `*` or `+` bullet and a space, at the start
    | NumberedItem        // digits, a dot and a space, at the start
    | YamlLine            // a line that is a `---` marker or a `key: value` pair
    | FromLine            // a line opening with `FROM` and an image name, any case
    | InstructionLine     // a line opening with `RUN`, `CMD`, `COPY` or `ADD`, any case
    | ShellKeyword        // the word `echo`, `export`, `source` or `alias`
    | DeclarationKeyword  // the word `const`, `let` or `var`
    | PowerShellSyntax    // `$env:`, `$PSModulePath` or `[cmdletbinding()]`, any case
    | ParamBlock          // `Param` and an opening parenthesis, any case
    | PythonKeyword       // a Python keyword such as `def`, `import`, `lambda` or `yield`
    | FunctionKeyword     // the word `function`
    | CapitalTag          // `<` followed by a capital letter: a component element
    | ReturnMarkup        // `return`, maybe a parenthesis, then markup
    | ClosingTag          // a closing tag
    | TypeDeclaration     // `interface`, `type` or `enum` and a name
    | TypeAnnotation      // a colon and a built-in, React or JSX type
    | GenericCall         // angle brackets followed by an opening parenthesis
    | TypeAssertion       // `as` and `const`, `string`, `number` or `any`
    | ComponentIdiom      // a React import, an exported function or an arrow component
    | ScriptKeyword       // a JavaScript keyword or an arrow
    | ConsoleCall         // a `console` log, error or warn call
    | SqlKeyword          // an SQL keyword such as `SELECT` or `JOIN`, any case
    | DocumentTag         // an `html`, doctype, `head` or `body` tag, any case
    | JavaKeyword         // a Java modifier or declaration keyword
    | ClassDeclaration    // `class` and a name
    | CsharpKeyword       // a C# declaration keyword such as `namespace` or `using`
    | UsingSystem         // `using System`
    | PackageClause       // `package` and a name, at the start
    | FuncDeclaration     // `func`, a name and an opening parenthesis
    | ImportBlock         // a parenthesised `import` block
    | RustKeyword         // a Rust keyword such as `fn`, `impl` or `mut`
    | FnDeclaration       // `fn` and a name
    | RubyKeyword         // a Ruby keyword such as `def`, `end` or `puts`
    | PhpVariable         // an assignment to a `$` variable
    | SwiftKeyword        // a Swift keyword such as `func` or `protocol`
    | AppleImport         // an import of Foundation or UIKit
    | KotlinKeyword       // a Kotlin keyword such as `fun` or `val`
    | FunDeclaration      // `fun` and a name
    | CKeyword            // a C type, `printf`, `scanf` or `#include`
    | SystemInclude       // an `#include` of a bracketed header
    | CppKeyword          // a C++ word such as `template`, `std::` or `cout`
    | IostreamInclude     // an `#include` of `iostream`
    | SelectorBlock       // a selector followed by a brace block
    | Declaration         // a colon, a value and a semicolon
    | PreprocessorSigil   // a `$` variable definition, `@mixin`, `@include` or `@extend`

  /** The regular-expression engine and the JSON parser. */
  datatype Engine = Engine(matches: (Pattern, string) -> bool, parsesJson: string -> bool)

  /** The bracket test guarding `JSON.parse`, on the trimmed content. */
  predicate Bracketed(t: string) {
    (StartsWith(t, "{") || StartsWith(t, "[")) && (EndsWith(t, "}") || EndsWith(t, "]"))
  }

  predicate JsonRule(content: string, e: Engine) {
    Bracketed(Trim(content)) && e.parsesJson(Trim(content))
  }

  predicate MarkdownRule(content: string, e: Engine) {
    var t := Trim(content);
    e.matches(HeadingMarker, t)
    || (e.matches(LinkSyntax, content) && !e.matches(MarkupTag, content))
    || e.matches(BulletItem, t)
    || e.matches(NumberedItem, t)
  }

  predicate YamlRule(content: string, e: Engine) {
    e.matches(YamlLine, content) && '{' !in content && ';' !in content
  }

  predicate DockerfileRule(content: string, e: Engine) {
    e.matches(FromLine, content) || e.matches(InstructionLine, content)
  }

  /** A `bash` or `sh` shebang opening the trimmed content. */
  predicate ShellShebang(t: string) {
    StartsWith(t, "#!/bin/bash") || StartsWith(t, "#!/bin/sh")
  }

  predicate ShellRule(content: string, e: Engine) {
    ShellShebang(Trim(content))
    || (e.matches(ShellKeyword, content) && !e.matches(DeclarationKeyword, content))
  }

  /** The test that turns a shell script into PowerShell. */
  predicate PowerShellMarker(content: string, e: Engine) {
    e.matches(PowerShellSyntax, content)
  }

  predicate PowerShellRule(content: string, e: Engine) {
    e.matches(PowerShellSyntax, content) || e.matches(ParamBlock, content)
  }

  predicate PythonRule(content: string, e: Engine) {
    e.matches(PythonKeyword, content)
    && !(e.matches(FunctionKeyword, content) || e.matches(DeclarationKeyword, content))
  }

  /** `hasJSXElements` */
  predicate HasJsxElements(content: string, e: Engine) {
    e.matches(CapitalTag, content) || e.matches(ReturnMarkup, content) || e.matches(ClosingTag, content)
  }

  /** `hasTypeScript` */
  predicate HasTypeScript(content: string, e: Engine) {
    e.matches(TypeDeclaration, content) || e.matches(TypeAnnotation, content)
    || e.matches(GenericCall, content) || e.matches(TypeAssertion, content)
  }

  predicate JsxRule(content: string, e: Engine) {
    HasJsxElements(content, e) && e.matches(ComponentIdiom, content)
  }

  predicate JavaScriptRule(content: string, e: Engine) {
    e.matches(ScriptKeyword, content) || e.matches(ConsoleCall, content)
  }

  predicate SqlRule(content: string, e: Engine) {
    e.matches(SqlKeyword, content)
  }

  predicate HtmlRule(content: string, e: Engine) {
    e.matches(DocumentTag, content)
  }

  /** An XML declaration opening the trimmed content. */
  predicate XmlRule(content: string) {
    StartsWith(Trim(content), "<?xml")
  }

  predicate JavaRule(content: string, e: Engine) {
    e.matches(JavaKeyword, content) && e.matches(ClassDeclaration, content)
  }

  predicate CsharpRule(content: string, e: Engine) {
    e.matches(CsharpKeyword, content) && e.matches(UsingSystem, content)
  }

  predicate GoRule(content: string, e: Engine) {
    e.matches(PackageClause, Trim(content)) || e.matches(FuncDeclaration, content)
    || e.matches(ImportBlock, content)
  }

  predicate RustRule(content: string, e: Engine) {
    e.matches(RustKeyword, content) && e.matches(FnDeclaration, content)
  }

  /** A shebang opening the trimmed content, which mentions `ruby` somewhere. */
  predicate RubyShebang(t: string) {
    StartsWith(t, "#!") && Contains(t, "ruby")
  }

  predicate RubyRule(content: string, e: Engine) {
    e.matches(RubyKeyword, content) || RubyShebang(Trim(content))
  }

  /** A `<?php` tag opening the trimmed content, or a `<?=` tag anywhere in it: the anchor binds to the first branch only. */
  predicate PhpTag(t: string) {
    StartsWith(t, "<?php") || Contains(t, "<?=")
  }

  predicate PhpRule(content: string, e: Engine) {
    PhpTag(Trim(content)) || e.matches(PhpVariable, content)
  }

  predicate SwiftRule(content: string, e: Engine) {
    e.matches(SwiftKeyword, content) && e.matches(AppleImport, content)
  }

  predicate KotlinRule(content: string, e: Engine) {
    e.matches(KotlinKeyword, content) && e.matches(FunDeclaration, content)
  }

  predicate CRule(content: string, e: Engine) {
    e.matches(CKeyword, content) && e.matches(SystemInclude, content)
  }

  predicate CppRule(content: string, e: Engine) {
    e.matches(CppKeyword, content) || e.matches(IostreamInclude, content)
  }

  predicate StylesheetRule(content: string, e: Engine) {
    e.matches(SelectorBlock, content) && e.matches(Declaration, content)
  }

  predicate ScssFeature(content: string, e: Engine) {
    e.matches(PreprocessorSigil, content)
  }

  /** None of the tests before the shell test holds. */
  predicate ReachesShellTest(content: string, e: Engine) {
    !IsBlank(content) && !JsonRule(content, e) && !MarkdownRule(content, e)
    && !YamlRule(content, e) && !DockerfileRule(content, e)
  }

  /** None of the tests before the TypeScript test holds. */
  predicate ReachesTypeScriptTest(content: string, e: Engine) {
    ReachesShellTest(content, e) && !ShellRule(content, e) && !PowerShellRule(content, e)
    && !PythonRule(content, e)
  }

  /**
   * `detectLanguage`: blank content is `Plaintext`; otherwise the first test that holds, in
   * source order, decides.
   */
  function DetectLanguage(content: string, e: Engine): (r: Language)
    ensures IsBlank(content) ==> r == Plaintext
    ensures r == Json <==> JsonRule(content, e)
  {
    if IsBlank(content) then Plaintext
    else if JsonRule(content, e) then Json
    else if MarkdownRule(content, e) then Markdown
    else if YamlRule(content, e) then Yaml
    else if DockerfileRule(content, e) then Dockerfile
    else if ShellRule(content, e) then
      (if PowerShellMarker(content, e) then Powershell else Bash)
    else if PowerShellRule(content, e) then Powershell
    else if PythonRule(content, e) then Python
    else if HasTypeScript(content, e) && HasJsxElements(content, e) then Tsx
    else if HasTypeScript(content, e) then Typescript
    else if JsxRule(content, e) then Jsx
    else if JavaScriptRule(content, e) then Javascript
    else if SqlRule(content, e) then Sql
    else if HtmlRule(content, e) then Html
    else if XmlRule(content) then Xml
    else if JavaRule(content, e) then Java
    else if CsharpRule(content, e) then Csharp
    else if GoRule(content, e) then Go
    else if RustRule(content, e) then Rust
    else if RubyRule(content, e) then Ruby
    else if PhpRule(content, e) then Php
    else if SwiftRule(content, e) then Swift
    else if KotlinRule(content, e) then Kotlin
    else if CRule(content, e) then C
    else if CppRule(content, e) then Cpp
    else if StylesheetRule(content, e) then
      (if ScssFeature(content, e) then Scss else Css)
    else Plaintext
  }

  /** A YAML label needs the YAML test and content with neither `{` nor `;`. */
  lemma YamlIsGuarded(content: string, e: Engine)
    requires DetectLanguage(content, e) == Yaml
    ensures YamlRule(content, e) && '{' !in content && ';' !in content
  {
  }

  /** A Bash label needs the shell test and no PowerShell cmdlet. */
  lemma BashIsShell(content: string, e: Engine)
    requires DetectLanguage(content, e) == Bash
    ensures ShellRule(content, e) && !PowerShellMarker(content, e)
  {
  }

  /** TSX needs TypeScript syntax and JSX elements; TypeScript needs the syntax and no elements. */
  lemma TypeScriptLabels(content: string, e: Engine)
    ensures DetectLanguage(content, e) == Tsx ==> HasTypeScript(content, e) && HasJsxElements(content, e)
    ensures DetectLanguage(content, e) == Typescript ==> HasTypeScript(content, e) && !HasJsxElements(content, e)
  {
  }

  /** JSX needs the JSX test and no TypeScript syntax. */
  lemma JsxHasNoTypes(content: string, e: Engine)
    requires DetectLanguage(content, e) == Jsx
    ensures JsxRule(content, e) && !HasTypeScript(content, e)
  {
  }

  /** SCSS needs the stylesheet test and an SCSS feature; CSS needs the test and no feature. */
  lemma StylesheetLabels(content: string, e: Engine)
    ensures DetectLanguage(content, e) == Scss ==> StylesheetRule(content, e) && ScssFeature(content, e)
    ensures DetectLanguage(content, e) == Css ==> StylesheetRule(content, e) && !ScssFeature(content, e)
  {
  }

  /** Shell-looking content that reaches the shell test is Bash, or PowerShell once a cmdlet shows. */
  lemma ShellDisambiguated(content: string, e: Engine)
    requires ReachesShellTest(content, e) && ShellRule(content, e)
    ensures DetectLanguage(content, e) == (if PowerShellMarker(content, e) then Powershell else Bash)
  {
  }

  /** TypeScript that reaches its test is TSX when it holds JSX elements and TypeScript otherwise. */
  lemma TypeScriptDisambiguated(content: string, e: Engine)
    requires ReachesTypeScriptTest(content, e) && HasTypeScript(content, e)
    ensures DetectLanguage(content, e) == (if HasJsxElements(content, e) then Tsx else Typescript)
  {
  }

  /** Content the stylesheet test accepts is never labelled plain text. */
  lemma StylesheetIsLabelled(content: string, e: Engine)
    requires StylesheetRule(content, e) && !IsBlank(content)
    ensures DetectLanguage(content, e) != Plaintext
  {
  }

  /** An ordered list of (test, label) pairs; `Fallback` ends it. */
  datatype Cascade = Fallback | Rule(holds: bool, language: Language, next: Cascade)

  /** The label of the first rule that holds, or `Plaintext` when none does. */
  function FirstMatch(c: Cascade): Language {
    match c
    case Fallback => Plaintext
    case Rule(holds, language, next) => if holds then language else FirstMatch(next)
  }

  /** The cascade as a list, in source order; the disambiguated rules contribute one entry per label. */
  function Rules(content: string, e: Engine): Cascade {
    Rule(JsonRule(content, e), Json,
    Rule(MarkdownRule(content, e), Markdown,
    Rule(YamlRule(content, e), Yaml,
    Rule(DockerfileRule(content, e), Dockerfile,
    Rule(ShellRule(content, e) && PowerShellMarker(content, e), Powershell,
    Rule(ShellRule(content, e), Bash,
    Rule(PowerShellRule(content, e), Powershell,
    Rule(PythonRule(content, e), Python,
    Rule(HasTypeScript(content, e) && HasJsxElements(content, e), Tsx,
    Rule(HasTypeScript(content, e), Typescript,
    Rule(JsxRule(content, e), Jsx,
    Rule(JavaScriptRule(content, e), Javascript,
    Rule(SqlRule(content, e), Sql,
    Rule(HtmlRule(content, e), Html,
    Rule(XmlRule(content), Xml,
    Rule(JavaRule(content, e), Java,
    Rule(CsharpRule(content, e), Csharp,
    Rule(GoRule(content, e), Go,
    Rule(RustRule(content, e), Rust,
    Rule(RubyRule(content, e), Ruby,
    Rule(PhpRule(content, e), Php,
    Rule(SwiftRule(content, e), Swift,
    Rule(KotlinRule(content, e), Kotlin,
    Rule(CRule(content, e), C,
    Rule(CppRule(content, e), Cpp,
    Rule(StylesheetRule(content, e) && ScssFeature(content, e), Scss,
    Rule(StylesheetRule(content, e), Css,
    Fallback)))))))))))))))))))))))))))
  }

  /** Past the blank-content check, the classifier is exactly the first match of the ordered list. */
  lemma DetectIsFirstMatch(content: string, e: Engine)
    requires !IsBlank(content)
    ensures DetectLanguage(content, e) == FirstMatch(Rules(content, e))
  {
    var c0 := Rules(content, e);
    var c2 := c0.next.next;
    assert FirstMatch(c0) == (if c0.holds then Json else if c0.next.holds then Markdown else FirstMatch(c2));
    var c4 := c2.next.next;
    assert FirstMatch(c2) == (if c2.holds then Yaml else if c2.next.holds then Dockerfile else FirstMatch(c4));
    var c6 := c4.next.next;
    assert FirstMatch(c4) == (if c4.holds then Powershell else if c4.next.holds then Bash else FirstMatch(c6));
    var c8 := c6.next.next;
    assert FirstMatch(c6) == (if c6.holds then Powershell else if c6.next.holds then Python else FirstMatch(c8));
    var c10 := c8.next.next;
    assert FirstMatch(c8) == (if c8.holds then Tsx else if c8.next.holds then Typescript else FirstMatch(c10));
    var c12 := c10.next.next;
    assert FirstMatch(c10) == (if c10.holds then Jsx else if c10.next.holds then Javascript else FirstMatch(c12));
    var c14 := c12.next.next;
    assert FirstMatch(c12) == (if c12.holds then Sql else if c12.next.holds then Html else FirstMatch(c14));
    var c16 := c14.next.next;
    assert FirstMatch(c14) == (if c14.holds then Xml else if c14.next.holds then Java else FirstMatch(c16));
    var c18 := c16.next.next;
    assert FirstMatch(c16) == (if c16.holds then Csharp else if c16.next.holds then Go else FirstMatch(c18));
    var c20 := c18.next.next;
    assert FirstMatch(c18) == (if c18.holds then Rust else if c18.next.holds then Ruby else FirstMatch(c20));
    var c22 := c20.next.next;
    assert FirstMatch(c20) == (if c20.holds then Php else if c20.next.holds then Swift else FirstMatch(c22));
    var c24 := c22.next.next;
    assert FirstMatch(c22) == (if c22.holds then Kotlin else if c22.next.holds then C else FirstMatch(c24));
    var c26 := c24.next.next;
    assert FirstMatch(c24) == (if c24.holds then Cpp else if c24.next.holds then Scss else FirstMatch(c26));
    assert FirstMatch(c26) == (if c26.holds then Css else Plaintext);
  }
}
