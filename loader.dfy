/**
 * The bootstrap script (`createScriptFactory` and the `syntaxTests` table). The script is held as a
 * small syntax tree: the statements before a `try`, inside it, in its `catch` and after it, all
 * inside one immediately invoked function. `Render` prints it as the dedented template does, and
 * `Run` executes it against an abstract browser.
 */
module Loader {
  import opened Text

  /** Syntax probes by target; only es2018 and later need one, since older targets are covered by
      the module probe. */
  const SyntaxTests: map<string, string> := map[
    "es2018" := "void ({...{}}, /0/s, " + "async function*(){})",  // object spread, dot-all regexp, async generator
    "es2019" := "try{} catch{}",                               // optional catch binding
    "es2020" := "0?.$"                                         // optional chaining
  ]

  /** Reading a property of `script.noModule` throws where module scripts are not understood. */
  const ModuleTest := "script.noModule.$"

  /** What a template literal prints for a missing table entry. */
  const Undefined := "undefined"

  /** `syntaxTests[target]` as it lands in the template: the probe, or `undefined` for a target
      without an entry. */
  function SyntaxTest(target: string): (probe: string)
    ensures target in SyntaxTests ==> probe == SyntaxTests[target]
    ensures target !in SyntaxTests ==> probe == Undefined
  {
    if target in SyntaxTests then SyntaxTests[target] else Undefined
  }

  /** The state the closure returned by `createScriptFactory` captures. */
  datatype ScriptFactory = ScriptFactory(syntaxTest: string, moduleTest: string)

  function CreateScriptFactory(target: string): (f: ScriptFactory)
    ensures f.moduleTest == ModuleTest
    ensures f.syntaxTest == SyntaxTest(target)
  {
    ScriptFactory(SyntaxTest(target), ModuleTest)
  }

  datatype Stmt =
    | CreateScript            // var script = document.createElement('script')
    | ModuleProbe(code: string)
    | SyntaxProbe(code: string) // eval('<code>')
    | SetType(value: string)  // script.type = '<value>'
    | SetSrc(url: string)     // script.src = '<url>'
    | AppendToHead            // document.head.appendChild(script)

  /** `prelude; try { body } catch(e) { handler } epilogue`. */
  datatype Script = Script(prelude: seq<Stmt>, body: seq<Stmt>, handler: seq<Stmt>, epilogue: seq<Stmt>)

  /** The closure returned by `createScriptFactory`, applied to the two bundle ids. */
  function LoaderScript(f: ScriptFactory, modernBundleId: string, legacyBundleId: string): Script {
    Script(
      [CreateScript],
      [ModuleProbe(f.moduleTest), SyntaxProbe(f.syntaxTest), SetType("module"), SetSrc(modernBundleId)],
      [SetSrc(legacyBundleId)],
      [AppendToHead])
  }

  // ---------------------------------------------------------------- rendering

  function StmtText(s: Stmt): string {
    match s
    case CreateScript => "var script = " + "document.createElement('script')"
    case ModuleProbe(code) => code
    case SyntaxProbe(code) => "eval('" + code + "')"
    case SetType(value) => "script.type = '" + value + "'"
    case SetSrc(url) => "script.src = '" + url + "'"
    case AppendToHead => "document.head." + "appendChild(script)"
  }

  function Lines(stmts: seq<Stmt>, indent: string): string {
    if stmts == [] then "" else indent + StmtText(stmts[0]) + "\n" + Lines(stmts[1..], indent)
  }

  /** The last two lines of every loader. */
  const Tail := "  })()\n</script>"

  const Head := "<script>\n  (function() {\n"
  const TryOpen := "    try {\n"
  const CatchOpen := "    } catch(e) {\n"
  const CatchClose := "    }\n"
  const Outer := "    "
  const Inner := "      "

  /** The template's text once its common indentation is removed. */
  function Render(sc: Script): string {
    Head
    + Lines(sc.prelude, Outer)
    + TryOpen
    + Lines(sc.body, Inner)
    + CatchOpen
    + Lines(sc.handler, Inner)
    + CatchClose
    + Lines(sc.epilogue, Outer)
    + Tail
  }

  /** The loader text for one pair of bundle ids. */
  function LoaderText(f: ScriptFactory, modernBundleId: string, legacyBundleId: string): string {
    Render(LoaderScript(f, modernBundleId, legacyBundleId))
  }

  // ---------------------------------------------------------------- running the script

  /** A script element: its `type` (`""` for a classic script) and its `src`. */
  datatype Element = Element(kind: string, src: string)

  /** The capabilities of the browser running the loader: whether it knows module scripts, and
      which code `eval` accepts. */
  datatype Browser = Browser(supportsModules: bool, parses: string -> bool)

  /** The script element being prepared and the elements appended to the document head so far. */
  datatype State = State(script: Element, appended: seq<Element>)

  /** The state after a statement run, and whether it threw. */
  datatype Exit = Exit(state: State, threw: bool)

  function StepStmt(s: Stmt, st: State, br: Browser): Exit {
    match s
    case CreateScript => Exit(st.(script := Element("", "")), false)
    case ModuleProbe(_) => Exit(st, !br.supportsModules)
    case SyntaxProbe(code) => Exit(st, !br.parses(code))
    case SetType(value) => Exit(st.(script := st.script.(kind := value)), false)
    case SetSrc(url) => Exit(st.(script := st.script.(src := url)), false)
    case AppendToHead => Exit(st.(appended := st.appended + [st.script]), false)
  }

  /** Runs statements in order and stops at the first that throws. */
  function Exec(stmts: seq<Stmt>, st: State, br: Browser): Exit {
    if stmts == [] then Exit(st, false)
    else
      var e := StepStmt(stmts[0], st, br);
      if e.threw then e else Exec(stmts[1..], e.state, br)
  }

  /** The elements the script appends: an exception in the `try` block runs the `catch` block,
      one anywhere else ends the script. */
  function Run(sc: Script, br: Browser): seq<Element> {
    var p := Exec(sc.prelude, State(Element("", ""), []), br);
    if p.threw then p.state.appended
    else
      var t := Exec(sc.body, p.state, br);
      var c := if t.threw then Exec(sc.handler, t.state, br) else t;
      if c.threw then c.state.appended
      else Exec(sc.epilogue, c.state, br).state.appended
  }

  /**
   * The loader appends exactly one script: the modern bundle as a module script when the browser
   * passes both probes, otherwise the legacy bundle as a classic script (its `type` never set).
   */
  lemma {:induction false} LoadsExactlyOneBundle(f: ScriptFactory, modernBundleId: string, legacyBundleId: string, br: Browser)
    ensures Run(LoaderScript(f, modernBundleId, legacyBundleId), br) ==
      if br.supportsModules && br.parses(f.syntaxTest)
      then [Element("module", modernBundleId)]
      else [Element("", legacyBundleId)]
  {
    var sc := LoaderScript(f, modernBundleId, legacyBundleId);
    var initial := State(Element("", ""), []);
    assert Exec(sc.prelude, State(Element("", ""), []), br) == Exit(initial, false);
    var body := sc.body;
    assert body[1..] == [SyntaxProbe(f.syntaxTest), SetType("module"), SetSrc(modernBundleId)];
    assert body[1..][1..] == [SetType("module"), SetSrc(modernBundleId)];
    assert body[1..][1..][1..] == [SetSrc(modernBundleId)];
    var t := Exec(body, initial, br);
    if !br.supportsModules || !br.parses(f.syntaxTest) {
      if br.supportsModules {
        assert Exec(body[1..], initial, br) == Exit(initial, true);
      }
      assert t == Exit(initial, true);
      var legacy := State(Element("", legacyBundleId), []);
      assert Exec(sc.handler, initial, br) == Exit(legacy, false);
      assert Exec(sc.epilogue, legacy, br).state.appended == [Element("", legacyBundleId)];
    } else {
      var modern := State(Element("module", modernBundleId), []);
      assert Exec(body[1..][1..][1..], State(Element("module", ""), []), br) == Exit(modern, false);
      assert Exec(body[1..][1..], initial, br) == Exit(modern, false);
      assert Exec(body[1..], initial, br) == Exit(modern, false);
      assert t == Exit(modern, false);
      assert Exec(sc.epilogue, modern, br).state.appended == [Element("module", modernBundleId)];
    }
  }

  /** The modern bundle is loaded exactly when both probes pass; the legacy one exactly otherwise
      (for two distinct ids). */
  lemma BranchesExclusive(f: ScriptFactory, modernBundleId: string, legacyBundleId: string, br: Browser)
    requires modernBundleId != legacyBundleId
    ensures var loaded := Run(LoaderScript(f, modernBundleId, legacyBundleId), br);
      && |loaded| == 1
      && (loaded[0].src == modernBundleId <==> br.supportsModules && br.parses(f.syntaxTest))
      && (loaded[0].src == legacyBundleId <==> !(br.supportsModules && br.parses(f.syntaxTest)))
      && (loaded[0].kind == "module" <==> loaded[0].src == modernBundleId)
  {
    LoadsExactlyOneBundle(f, modernBundleId, legacyBundleId, br);
  }

  // ---------------------------------------------------------------- the shape of the script

  function CountAppends(stmts: seq<Stmt>): nat {
    if stmts == [] then 0 else (if stmts[0] == AppendToHead then 1 else 0) + CountAppends(stmts[1..])
  }

  /** The ids a block points the element at. */
  function Sources(stmts: seq<Stmt>): set<string> {
    if stmts == [] then {} else (if stmts[0].SetSrc? then {stmts[0].url} else {}) + Sources(stmts[1..])
  }

  predicate IsProbe(s: Stmt) {
    s.ModuleProbe? || s.SyntaxProbe?
  }

  predicate IsAssignment(s: Stmt) {
    s.SetSrc? || s.SetType?
  }

  /** No probe runs once the element has been assigned to. */
  predicate ProbesFirst(stmts: seq<Stmt>) {
    forall i, j :: 0 <= i < j < |stmts| && IsAssignment(stmts[i]) ==> !IsProbe(stmts[j])
  }

  /**
   * The shape of every loader: the modern id is assigned only in the `try` block, after both
   * probes; the legacy id only in the `catch` block; one `appendChild` in the whole script, after
   * the `try`/`catch`.
   */
  lemma ScriptShape(f: ScriptFactory, modernBundleId: string, legacyBundleId: string)
    ensures var sc := LoaderScript(f, modernBundleId, legacyBundleId);
      && Sources(sc.prelude) == {} && Sources(sc.epilogue) == {}
      && Sources(sc.body) == {modernBundleId}
      && Sources(sc.handler) == {legacyBundleId}
      && ProbesFirst(sc.body)
      && sc.body[0] == ModuleProbe(f.moduleTest) && sc.body[1] == SyntaxProbe(f.syntaxTest)
      && CountAppends(sc.prelude) + CountAppends(sc.body) + CountAppends(sc.handler) == 0
      && CountAppends(sc.epilogue) == 1
  {
    var sc := LoaderScript(f, modernBundleId, legacyBundleId);
    var body := sc.body;
    assert body[1..] == [SyntaxProbe(f.syntaxTest), SetType("module"), SetSrc(modernBundleId)];
    assert body[1..][1..] == [SetType("module"), SetSrc(modernBundleId)];
    assert body[1..][1..][1..] == [SetSrc(modernBundleId)];
    assert Sources(body[1..][1..][1..]) == {modernBundleId};
    assert Sources(body[1..][1..]) == {modernBundleId};
    assert Sources(body[1..]) == {modernBundleId};
    assert CountAppends(body[1..][1..][1..]) == 0;
    assert CountAppends(body[1..][1..]) == 0;
    assert CountAppends(body[1..]) == 0;
  }

  // ---------------------------------------------------------------- the ids inside the text

  /** A character that ends a line of JavaScript source. */
  predicate LineTerminator(c: char) {
    c == '\n' || c == '\r' || c == '\U{2028}' || c == '\U{2029}'
  }

  /** Text that a single-quoted JavaScript string literal holds exactly as written: no quote that
      would close it, no backslash that would start an escape, no line break. */
  predicate LiteralSafe(s: string) {
    forall i :: 0 <= i < |s| ==> s[i] != '\'' && s[i] != '\\' && !LineTerminator(s[i])
  }

  const SrcPrefix := "script.src = '"

  /** `line` is `script.src = '…'` whose literal runs to the last character of the line and holds
      its body as written. */
  predicate PlainSrcLine(line: string) {
    && |line| > |SrcPrefix|
    && StartsWith(line, SrcPrefix)
    && line[|line| - 1] == '\''
    && LiteralSafe(line[|SrcPrefix|..|line| - 1])
  }

  /**
   * The template pastes a bundle id into its `script.src` literal unescaped, so the line assigns
   * that id exactly when the id is safe inside a single-quoted literal. The statements `Run`
   * executes are the rendered text's meaning only for such ids.
   */
  lemma SrcLineIff(url: string)
    ensures PlainSrcLine(StmtText(SetSrc(url))) <==> LiteralSafe(url)
    ensures var line := StmtText(SetSrc(url)); line[|SrcPrefix|..|line| - 1] == url
  {
    var line := StmtText(SetSrc(url));
    assert line == SrcPrefix + url + "'";
    assert line[|SrcPrefix|..|line| - 1] == url;
  }

  /** For the id `/it's.js` the rendered assignment is `script.src = '/it's.js'`: its literal
      closes after `/it`, and the rest of the line is not JavaScript. (The id is a parameter pinned
      by `requires`, since the verifier unfolds functions on literals eagerly.) */
  lemma ApostropheBreaksLiteral(url: string)
    requires url == "/it's.js"
    ensures !PlainSrcLine(StmtText(SetSrc(url)))
    ensures StmtText(SetSrc(url))[|SrcPrefix| + 3] == '\''
  {
    SrcLineIff(url);
    assert url[3] == '\'';
    assert !LiteralSafe(url);
  }

  // ---------------------------------------------------------------- the probe lookup

  /**
   * The table is looked up by the lower-cased target, so any case variant of `es2018`, `es2019`
   * or `es2020` finds that year's probe, and every other target gets `undefined`.
   */
  lemma ProbeIgnoresCase(target: string)
    ensures Lower(target) in SyntaxTests <==>
      EqualsIgnoreCase(target, "es2018") || EqualsIgnoreCase(target, "es2019") || EqualsIgnoreCase(target, "es2020")
    ensures SyntaxTest(Lower(target)) ==
      if EqualsIgnoreCase(target, "es2018") then "void ({...{}}, /0/s, " + "async function*(){})"
      else if EqualsIgnoreCase(target, "es2019") then "try{} catch{}"
      else if EqualsIgnoreCase(target, "es2020") then "0?.$"
      else Undefined
  {
    LowerEqualsIff(target, "es2018");
    LowerEqualsIff(target, "es2019");
    LowerEqualsIff(target, "es2020");
  }

  lemma ProbeExamples()
    ensures CreateScriptFactory(Lower("ES2019")).syntaxTest == CreateScriptFactory(Lower("es2019")).syntaxTest == "try{} catch{}"
    ensures CreateScriptFactory(Lower("es2017")).syntaxTest == Undefined
    ensures CreateScriptFactory(Lower("esnext")).syntaxTest == Undefined
  {
    ProbeIgnoresCase("ES2019");
    ProbeIgnoresCase("es2019");
    ProbeIgnoresCase("es2017");
    ProbeIgnoresCase("esnext");
  }

  // ---------------------------------------------------------------- characters of the text

  predicate StmtQuoteFree(s: Stmt) {
    match s
    case ModuleProbe(code) => QuoteFree(code)
    case SyntaxProbe(code) => QuoteFree(code)
    case SetType(value) => QuoteFree(value)
    case SetSrc(url) => QuoteFree(url)
    case _ => true
  }

  predicate BlockQuoteFree(stmts: seq<Stmt>) {
    forall k :: 0 <= k < |stmts| ==> StmtQuoteFree(stmts[k])
  }

  lemma StmtTextQuoteFree(s: Stmt)
    requires StmtQuoteFree(s)
    ensures QuoteFree(StmtText(s))
  {
    match s
    case CreateScript =>
    case ModuleProbe(code) =>
    case SyntaxProbe(code) =>
    case SetType(value) =>
    case SetSrc(url) =>
    case AppendToHead =>
  }

  lemma {:induction false} LinesQuoteFree(stmts: seq<Stmt>, indent: string)
    requires BlockQuoteFree(stmts) && QuoteFree(indent)
    ensures QuoteFree(Lines(stmts, indent))
  {
    if stmts != [] {
      StmtTextQuoteFree(stmts[0]);
      LinesQuoteFree(stmts[1..], indent);
    }
  }

  /** Every probe the factory can capture is free of double quotes. */
  lemma FactoryQuoteFree(target: string)
    ensures QuoteFree(CreateScriptFactory(target).syntaxTest)
    ensures QuoteFree(CreateScriptFactory(target).moduleTest)
  {
    assert QuoteFree(SyntaxTests["es2018"]) && QuoteFree(SyntaxTests["es2019"]) && QuoteFree(SyntaxTests["es2020"]);
    if target in SyntaxTests {
      assert target == "es2018" || target == "es2019" || target == "es2020";
    }
  }

  /** The template itself holds no double quote: one appears in the loader only through its inputs. */
  lemma LoaderTextQuoteFree(f: ScriptFactory, modernBundleId: string, legacyBundleId: string)
    requires QuoteFree(f.syntaxTest) && QuoteFree(f.moduleTest)
    requires QuoteFree(modernBundleId) && QuoteFree(legacyBundleId)
    ensures QuoteFree(LoaderText(f, modernBundleId, legacyBundleId))
  {
    var sc := LoaderScript(f, modernBundleId, legacyBundleId);
    assert QuoteFree(Head) && QuoteFree(TryOpen) && QuoteFree(CatchOpen) && QuoteFree(CatchClose) && QuoteFree(Tail);
    assert QuoteFree(Outer) && QuoteFree(Inner);
    assert BlockQuoteFree(sc.body);
    LinesQuoteFree(sc.prelude, Outer);
    LinesQuoteFree(sc.body, Inner);
    LinesQuoteFree(sc.handler, Inner);
    LinesQuoteFree(sc.epilogue, Outer);
  }

  lemma RenderEndsWithTail(sc: Script)
    ensures EndsWith(Render(sc), Tail)
  {
    var r := Render(sc);
    var head := r[..|r| - |Tail|];
    assert r == head + Tail;
  }
}
