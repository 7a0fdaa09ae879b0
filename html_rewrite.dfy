/**
 * The `build.html.replace(/<script type="module" src="([^"]+)"><\/script>/g, ...)` step: every
 * module script tag whose `src` has the main chunk's file name as base name becomes the loader
 * script; every other tag, and all text around the tags, is kept.
 */
module HtmlRewrite {
  import opened Text
  import opened Wrappers
  import PosixPath
  import LegacyName
  import Loader

  const TagOpen := "<script type=\"module\" src=\""
  const TagClose := "\"></script>"

  /** The text of a module script tag with the given `src`. */
  function ModuleTag(src: string): string {
    TagOpen + src + TagClose
  }

  /** How far `[^"]+` can reach: the length of the longest prefix without a quote. */
  function QuoteFreeLen(s: string): (n: nat)
    ensures n <= |s|
    ensures QuoteFree(s[..n])
    ensures n < |s| ==> s[n] == '"'
  {
    if s == [] || s[0] == '"' then 0
    else
      var n := 1 + QuoteFreeLen(s[1..]);
      assert s[..n] == [s[0]] + s[1..][..n - 1];
      n
  }

  /** A match of the pattern: its length and its capture group. */
  datatype Match = Match(len: nat, src: string)

  /** The pattern tried at the start of `s`. A `[^"]+` that must be followed by `"` can only stop
      at the first quote, so backtracking finds no other match. */
  function MatchAt(s: string): (m: Option<Match>)
    ensures m.Some? ==> m.value.len == |ModuleTag(m.value.src)| <= |s| && s[..m.value.len] == ModuleTag(m.value.src)
  {
    if !StartsWith(s, TagOpen) then None
    else
      var rest := s[|TagOpen|..];
      var n := QuoteFreeLen(rest);
      if n > 0 && StartsWith(rest[n..], TagClose) then
        assert s[..|TagOpen| + n + |TagClose|] == TagOpen + rest[..n] + rest[n..][..|TagClose|];
        Some(Match(|TagOpen| + n + |TagClose|, rest[..n]))
      else None
  }

  /** The language of the pattern: `s` starts with a module tag whose `src` is non-empty and quote-free. */
  predicate TagAt(s: string, src: string) {
    src != [] && QuoteFree(src) && StartsWith(s, ModuleTag(src))
  }

  /** The matcher finds exactly the tags of the pattern's language, with the right capture. */
  lemma MatchAtIff(s: string, src: string)
    ensures (MatchAt(s).Some? && MatchAt(s).value.src == src) <==> TagAt(s, src)
  {
    if TagAt(s, src) {
      TagMatches(s, src);
    }
  }

  /** A tag of the pattern's language at the front of `s` is what the matcher finds. */
  lemma TagMatches(s: string, src: string)
    requires TagAt(s, src)
    ensures MatchAt(s) == Some(Match(|ModuleTag(src)|, src))
  {
    var tag := ModuleTag(src);
    var o, n := |TagOpen|, |src|;
    assert s[..|tag|] == tag;
    assert s[..o] == TagOpen by {
      assert s[..o] == tag[..o];
    }
    var rest := s[o..];
    assert rest[..n] == src by {
      assert rest[..n] == tag[o..o + n];
    }
    assert rest[n] == '"' by {
      assert rest[n] == tag[o + n];
    }
    QuoteFreePrefix(rest, n);
    assert rest[n..][..|TagClose|] == TagClose by {
      assert rest[n..][..|TagClose|] == tag[o + n..];
    }
  }

  /** A quote-free prefix followed by a quote is exactly the reach of `[^"]+`. */
  lemma {:induction false} QuoteFreePrefix(s: string, k: nat)
    requires k < |s| && QuoteFree(s[..k]) && s[k] == '"'
    ensures QuoteFreeLen(s) == k
  {
    if k > 0 {
      assert s[0] == s[..k][0];
      assert s[1..][..k - 1] == s[..k][1..];
      QuoteFreePrefix(s[1..], k - 1);
    }
  }

  /** What the replace callback needs besides the match: the main chunk's file name, the legacy
      chunk's file name, the loader factory and the working directory of `path.posix.resolve`. */
  datatype Binding = Binding(mainFileName: string, legacyFileName: string, getLoader: Loader.ScriptFactory, cwd: string)

  predicate Managed(src: string, b: Binding) {
    PosixPath.Basename(src) == b.mainFileName
  }

  /** The replace callback: the loader for a tag of the main chunk, the matched text otherwise. */
  function Replacement(src: string, b: Binding): string
    requires PosixPath.Absolute(b.cwd)
  {
    if Managed(src, b)
    then Loader.LoaderText(b.getLoader, src, PosixPath.Sibling(src, b.legacyFileName, b.cwd))
    else ModuleTag(src)
  }

  /** The global replace: scan from the left, replace a match and resume after it, keep any
      character where no match starts. */
  function Rewrite(html: string, b: Binding): string
    requires PosixPath.Absolute(b.cwd)
    decreases |html|
  {
    if html == [] then []
    else
      match MatchAt(html)
      case Some(m) => Replacement(m.src, b) + Rewrite(html[m.len..], b)
      case None => [html[0]] + Rewrite(html[1..], b)
  }

  // ---------------------------------------------------------------- text that holds no tag

  /** `w` disagrees with the tag opening within the shorter of the two: no tag can start here,
      whatever text follows. */
  predicate Diverges(w: string) {
    var n := if |w| < |TagOpen| then |w| else |TagOpen|;
    w[..n] != TagOpen[..n]
  }

  /** No position of `t` starts a match of the pattern, whatever text follows `t`: this holds for
      stray `<script` text and for near-miss tags (an extra attribute, an empty `src`) alike. */
  ghost predicate Inert(t: string) {
    forall i :: 0 <= i < |t| ==> Unmatched(t[i..])
  }

  /** No match starts at the front of `w`, whatever text follows it. */
  ghost predicate Unmatched(w: string) {
    forall x :: MatchAt(w + x).None?
  }

  /** A sufficient condition for `Inert` that can be checked character by character: every
      suffix of `t` disagrees with the tag opening. */
  predicate Blocked(t: string) {
    forall i :: 0 <= i < |t| ==> Diverges(t[i..])
  }

  lemma DivergesBlocks(w: string, x: string)
    requires Diverges(w)
    ensures !StartsWith(w + x, TagOpen)
  {
  }

  lemma BlockedInert(t: string)
    requires Blocked(t)
    ensures Inert(t)
  {
    forall i | 0 <= i < |t| ensures Unmatched(t[i..]) {
      forall x ensures MatchAt(t[i..] + x).None? {
        DivergesBlocks(t[i..], x);
      }
    }
  }

  /** An inert text that is not empty: nothing matches at its front, and its tail is inert. */
  lemma InertFront(a: string, rest: string)
    requires Inert(a) && a != []
    ensures MatchAt(a + rest).None?
    ensures Inert(a[1..])
  {
    assert a[0..] == a;
    assert Unmatched(a[0..]);
    forall i | 0 <= i < |a| - 1 ensures Unmatched(a[1..][i..]) {
      assert a[1..][i..] == a[i + 1..];
    }
  }

  /** Where nothing matches, the rewrite copies one character and carries on. */
  lemma RewriteCopies(s: string, b: Binding)
    requires s != [] && MatchAt(s).None? && PosixPath.Absolute(b.cwd)
    ensures Rewrite(s, b) == [s[0]] + Rewrite(s[1..], b)
  {
  }

  /** The rewrite copies inert text and carries on after it. */
  lemma {:induction false} InertPrefix(a: string, rest: string, b: Binding)
    requires Inert(a) && PosixPath.Absolute(b.cwd)
    ensures Rewrite(a + rest, b) == a + Rewrite(rest, b)
    decreases |a|
  {
    if a == [] {
      assert a + rest == rest;
    } else {
      var s := a + rest;
      InertFront(a, rest);
      RewriteCopies(s, b);
      assert s[1..] == a[1..] + rest;
      InertPrefix(a[1..], rest, b);
      assert s == [a[0]] + a[1..] + rest;
    }
  }

  /** Text in which no tag can start is returned unchanged. */
  lemma InertUnchanged(t: string, b: Binding)
    requires Inert(t) && PosixPath.Absolute(b.cwd)
    ensures Rewrite(t, b) == t
  {
    InertPrefix(t, [], b);
    assert t + [] == t;
  }

  /** A module tag at the front is matched whole, whatever follows it. */
  lemma MatchTag(src: string, rest: string)
    requires src != [] && QuoteFree(src)
    ensures MatchAt(ModuleTag(src) + rest) == Some(Match(|ModuleTag(src)|, src))
  {
    var s := ModuleTag(src) + rest;
    assert s[..|ModuleTag(src)|] == ModuleTag(src);
    MatchAtIff(s, src);
  }

  // ---------------------------------------------------------------- documents made of pieces

  /** A document seen as inert text and module tags. */
  datatype Piece = Text(text: string) | Tag(src: string)

  function PieceText(p: Piece): string {
    match p
    case Text(t) => t
    case Tag(src) => ModuleTag(src)
  }

  function Flatten(ps: seq<Piece>): string {
    if ps == [] then "" else PieceText(ps[0]) + Flatten(ps[1..])
  }

  ghost predicate WellFormed(p: Piece) {
    match p
    case Text(t) => Inert(t)
    case Tag(src) => src != [] && QuoteFree(src)
  }

  ghost predicate AllWellFormed(ps: seq<Piece>) {
    forall k :: 0 <= k < |ps| ==> WellFormed(ps[k])
  }

  /** What the rewrite makes of one piece. */
  function Emit(p: Piece, b: Binding): string
    requires PosixPath.Absolute(b.cwd)
  {
    match p
    case Text(t) => t
    case Tag(src) => Replacement(src, b)
  }

  function EmitAll(ps: seq<Piece>, b: Binding): string
    requires PosixPath.Absolute(b.cwd)
  {
    if ps == [] then "" else Emit(ps[0], b) + EmitAll(ps[1..], b)
  }

  /**
   * On a document of inert text and module tags the rewrite handles every tag, not only the
   * first: a tag of the main chunk becomes its loader, any other tag and all the text stay as they
   * were, in the same order.
   */
  lemma {:induction false} RewriteStructured(ps: seq<Piece>, b: Binding)
    requires AllWellFormed(ps) && PosixPath.Absolute(b.cwd)
    ensures Rewrite(Flatten(ps), b) == EmitAll(ps, b)
  {
    if ps != [] {
      RewriteStructured(ps[1..], b);
      var rest := Flatten(ps[1..]);
      assert WellFormed(ps[0]);
      match ps[0]
      case Text(t) =>
        InertPrefix(t, rest, b);
      case Tag(src) =>
        var s := ModuleTag(src) + rest;
        MatchTag(src, rest);
        assert s[|ModuleTag(src)|..] == rest;
    }
  }

  /** A document without a tag of the main chunk is left byte for byte as it was. */
  lemma {:induction false} NoManagedTagUnchanged(ps: seq<Piece>, b: Binding)
    requires AllWellFormed(ps) && PosixPath.Absolute(b.cwd)
    requires forall k :: 0 <= k < |ps| && ps[k].Tag? ==> !Managed(ps[k].src, b)
    ensures Rewrite(Flatten(ps), b) == Flatten(ps)
  {
    RewriteStructured(ps, b);
    EmitUnmanaged(ps, b);
  }

  lemma {:induction false} EmitUnmanaged(ps: seq<Piece>, b: Binding)
    requires PosixPath.Absolute(b.cwd)
    requires forall k :: 0 <= k < |ps| && ps[k].Tag? ==> !Managed(ps[k].src, b)
    ensures EmitAll(ps, b) == Flatten(ps)
  {
    if ps != [] {
      EmitUnmanaged(ps[1..], b);
    }
  }

  // ---------------------------------------------------------------- any document

  /** The pieces the global scan cuts any document into: each match becomes a tag, each character
      at which no match starts a one-character text. */
  function Scan(html: string): seq<Piece>
    decreases |html|
  {
    if html == [] then []
    else
      match MatchAt(html)
      case Some(m) => [Tag(m.src)] + Scan(html[m.len..])
      case None => [Text([html[0]])] + Scan(html[1..])
  }

  /** The scan loses and adds nothing: its pieces spell the document. */
  lemma {:induction false} ScanSpells(html: string)
    ensures Flatten(Scan(html)) == html
    decreases |html|
  {
    if html != [] {
      match MatchAt(html)
      case Some(m) =>
        ScanSpells(html[m.len..]);
        assert Scan(html)[1..] == Scan(html[m.len..]);
        assert html == html[..m.len] + html[m.len..];
      case None =>
        ScanSpells(html[1..]);
        assert Scan(html)[1..] == Scan(html[1..]);
        assert html == [html[0]] + html[1..];
    }
  }

  /** The tags of the scan are the pattern's captures: non-empty and quote-free. */
  lemma {:induction false} ScanTags(html: string)
    ensures forall k :: 0 <= k < |Scan(html)| && Scan(html)[k].Tag? ==>
      Scan(html)[k].src != [] && QuoteFree(Scan(html)[k].src)
    decreases |html|
  {
    if html != [] {
      var ps := Scan(html);
      match MatchAt(html)
      case Some(m) =>
        ScanTags(html[m.len..]);
        MatchAtIff(html, m.src);
        assert ps[1..] == Scan(html[m.len..]);
        forall k | 0 < k < |ps| && ps[k].Tag? ensures ps[k].src != [] && QuoteFree(ps[k].src) {
          assert ps[k] == ps[1..][k - 1];
        }
      case None =>
        ScanTags(html[1..]);
        assert ps[1..] == Scan(html[1..]);
        forall k | 0 < k < |ps| && ps[k].Tag? ensures ps[k].src != [] && QuoteFree(ps[k].src) {
          assert ps[k] == ps[1..][k - 1];
        }
    }
  }

  /** On every document, the rewrite is the scan's pieces with each tag replaced by the
      callback's value and every other character kept, in order. */
  lemma {:induction false} RewriteIsScan(html: string, b: Binding)
    requires PosixPath.Absolute(b.cwd)
    ensures Rewrite(html, b) == EmitAll(Scan(html), b)
    decreases |html|
  {
    if html != [] {
      match MatchAt(html)
      case Some(m) =>
        RewriteIsScan(html[m.len..], b);
        assert Scan(html)[1..] == Scan(html[m.len..]);
      case None =>
        RewriteIsScan(html[1..], b);
        assert Scan(html)[1..] == Scan(html[1..]);
    }
  }

  /** Any document in which the scan finds no tag of the main chunk is left byte for byte as it
      was, near-miss tags and stray tag text included. */
  lemma RewriteKeepsUnmanaged(html: string, b: Binding)
    requires PosixPath.Absolute(b.cwd)
    requires forall k :: 0 <= k < |Scan(html)| && Scan(html)[k].Tag? ==> !Managed(Scan(html)[k].src, b)
    ensures Rewrite(html, b) == html
  {
    RewriteIsScan(html, b);
    EmitUnmanaged(Scan(html), b);
    ScanSpells(html);
  }

  // ---------------------------------------------------------------- the loader holds no tag

  /** Inert texts side by side stay inert. */
  lemma InertConcat(x: string, y: string)
    requires Inert(x) && Inert(y)
    ensures Inert(x + y)
  {
    forall i | 0 <= i < |x + y| ensures Unmatched((x + y)[i..]) {
      if i < |x| {
        assert Unmatched(x[i..]);
        forall z ensures MatchAt((x + y)[i..] + z).None? {
          assert (x + y)[i..] + z == x[i..] + (y + z);
        }
      } else {
        assert (x + y)[i..] == y[i - |x|..];
      }
    }
  }

  /** Text without `<` holds no match. */
  lemma NoAngleInert(t: string)
    requires '<' !in t
    ensures Inert(t)
  {
    NoAngleBlocked(t);
    BlockedInert(t);
  }

  /** Text whose one `<` is at the front and is not followed by `s` holds no match. */
  lemma LeadingAngleInert(t: string)
    requires |t| >= 2 && t[1] != 's' && '<' !in t[1..]
    ensures Inert(t)
  {
    LeadingAngleBlocked(t);
    BlockedInert(t);
  }

  /** A quote-free text ending like a loader holds no match. */
  lemma QuoteFreeLoaderInert(t: string)
    requires QuoteFree(t) && EndsWith(t, Loader.Tail)
    ensures Inert(t)
  {
    QuoteFreeLoaderBlocked(t);
    BlockedInert(t);
  }

  lemma BlockedConcat(x: string, y: string)
    requires Blocked(x) && Blocked(y)
    ensures Blocked(x + y)
  {
    forall i | 0 <= i < |x + y| ensures Diverges((x + y)[i..]) {
      if i < |x| {
        var w := x[i..];
        assert Diverges(w);
        var n := if |w| < |TagOpen| then |w| else |TagOpen|;
        var k :| 0 <= k < n && w[k] != TagOpen[k];
        var v := (x + y)[i..];
        var m := if |v| < |TagOpen| then |v| else |TagOpen|;
        assert v[k] == w[k];
        assert v[..m][k] != TagOpen[..m][k];
      } else {
        assert (x + y)[i..] == y[i - |x|..];
      }
    }
  }

  lemma NoAngleBlocked(t: string)
    requires '<' !in t
    ensures Blocked(t)
  {
    forall i | 0 <= i < |t| ensures Diverges(t[i..]) {
      assert t[i..][0] != TagOpen[0];
    }
  }

  lemma LeadingAngleBlocked(t: string)
    requires |t| >= 2 && t[1] != 's' && '<' !in t[1..]
    ensures Blocked(t)
  {
    NoAngleBlocked(t[1..]);
    forall i | 0 <= i < |t| ensures Diverges(t[i..]) {
      if i == 0 {
        assert t[..2][1] != TagOpen[..2][1];
      } else {
        assert t[i..] == t[1..][i - 1..];
      }
    }
  }

  lemma TailBlocked()
    ensures Blocked(Loader.Tail)
  {
    var a := "  })()\n";
    var c := "</script>";
    assert Loader.Tail == a + c;
    NoAngleBlocked(a);
    LeadingAngleBlocked(c);
    BlockedConcat(a, c);
  }

  /** A quote-free text ending like a loader holds no tag: far from its end the tag's first quote
      is missing, near its end the loader's last line decides. */
  lemma QuoteFreeLoaderBlocked(t: string)
    requires QuoteFree(t) && EndsWith(t, Loader.Tail)
    ensures Blocked(t)
  {
    TailBlocked();
    var tail := Loader.Tail;
    var start := |t| - |tail|;
    forall i | 0 <= i < |t| ensures Diverges(t[i..]) {
      var w := t[i..];
      if i < start {
        assert |w| > 13;
        assert w[13] in t;
        assert TagOpen[13] == '"';
        var n := if |w| < |TagOpen| then |w| else |TagOpen|;
        assert w[..n][13] != TagOpen[..n][13];
      } else {
        assert w == tail[i - start..];
      }
    }
  }

  /**
   * A near-miss tag, whose `src` value is empty or is closed by a quote that `></script>` does
   * not follow (an attribute after `src`, say), is not matched, and neither is anything inside it:
   * the rewrite keeps it as it is, whatever follows. This needs a `src` without `<` and a tail in
   * which no suffix begins like `<script type="module" src="`; otherwise a whole tag can hide inside.
   */
  lemma NearMissInert(src: string, tail: string)
    requires QuoteFree(src) && '<' !in src && Blocked(tail) && tail != []
    requires src == [] || tail[0] != '>'
    ensures Inert(TagOpen + src + "\"" + tail)
  {
    var t := TagOpen + src + "\"" + tail;
    var inner := TagOpen[1..] + src + "\"";
    assert '<' !in TagOpen[1..];
    NoAngleBlocked(inner);
    BlockedConcat(inner, tail);
    BlockedInert(inner + tail);
    assert t[1..] == inner + tail;
    forall i | 0 <= i < |t| ensures Unmatched(t[i..]) {
      if i == 0 {
        assert t[0..] == t;
        forall x ensures MatchAt(t + x).None? {
          NearMissHead(src, tail, x);
        }
      } else {
        assert t[i..] == (inner + tail)[i - 1..];
      }
    }
  }

  lemma NearMissHead(src: string, tail: string, x: string)
    requires QuoteFree(src) && tail != [] && (src == [] || tail[0] != '>')
    ensures MatchAt(TagOpen + src + "\"" + tail + x).None?
  {
    var s := TagOpen + src + "\"" + tail + x;
    assert s[..|TagOpen|] == TagOpen;
    var rest := s[|TagOpen|..];
    assert rest == src + "\"" + tail + x;
    assert rest[..|src|] == src;
    assert rest[|src|] == '"';
    QuoteFreePrefix(rest, |src|);
    if src != [] {
      assert rest[|src|..][1] == tail[0];
    }
  }

  /** `<script type="module" src="/x.js" async></script>` is left alone by the rewrite. (The strings
      are parameters pinned by `requires`, since the verifier unfolds functions on literals eagerly.) */
  lemma NearMissExample(src: string, attrs: string, close: string)
    requires src == "/x.js" && attrs == " async>" && close == "</script>"
    ensures Inert(TagOpen + src + "\"" + (attrs + close))
  {
    NoAngleBlocked(attrs);
    LeadingAngleBlocked(close);
    BlockedConcat(attrs, close);
    NearMissInert(src, attrs + close);
  }

  lemma BasenameQuoteFree(p: string)
    requires QuoteFree(p)
    ensures QuoteFree(PosixPath.Basename(p))
  {
    PosixPath.SplitQuoteFree(p);
    PosixPath.LastNonEmptyIn(PosixPath.Split(p));
  }

  /** The bindings the build makes: the legacy file is named after the main chunk, and the
      probes and the working directory carry no quote. */
  predicate BuildBinding(b: Binding) {
    && PosixPath.Absolute(b.cwd) && QuoteFree(b.cwd)
    && QuoteFree(b.getLoader.syntaxTest) && QuoteFree(b.getLoader.moduleTest)
    && b.legacyFileName == LegacyName.LegacyFileName(b.mainFileName)
  }

  /** The loader written in place of a quote-free `src` can never start a tag of its own. */
  lemma ReplacementInert(src: string, b: Binding)
    requires BuildBinding(b) && QuoteFree(src) && Managed(src, b)
    ensures Inert(Replacement(src, b))
  {
    BasenameQuoteFree(src);
    LegacyName.KeepsQuoteFree(b.mainFileName);
    var legacyId := PosixPath.Sibling(src, b.legacyFileName, b.cwd);
    PosixPath.SiblingQuoteFree(src, b.legacyFileName, b.cwd);
    Loader.LoaderTextQuoteFree(b.getLoader, src, legacyId);
    Loader.RenderEndsWithTail(Loader.LoaderScript(b.getLoader, src, legacyId));
    QuoteFreeLoaderInert(Replacement(src, b));
  }

  /** The pieces of the rewritten document: loaders become text, other tags stay tags. */
  function Settle(ps: seq<Piece>, b: Binding): (r: seq<Piece>)
    requires PosixPath.Absolute(b.cwd)
    ensures |r| == |ps|
  {
    if ps == [] then []
    else
      var p := ps[0];
      var q := if p.Tag? && Managed(p.src, b) then Text(Replacement(p.src, b)) else p;
      [q] + Settle(ps[1..], b)
  }

  lemma {:induction false} SettleFacts(ps: seq<Piece>, b: Binding)
    requires AllWellFormed(ps) && BuildBinding(b)
    ensures Flatten(Settle(ps, b)) == EmitAll(ps, b)
    ensures AllWellFormed(Settle(ps, b))
    ensures forall k :: 0 <= k < |ps| && Settle(ps, b)[k].Tag? ==> !Managed(Settle(ps, b)[k].src, b)
  {
    if ps != [] {
      SettleFacts(ps[1..], b);
      assert WellFormed(ps[0]);
      if ps[0].Tag? && Managed(ps[0].src, b) {
        ReplacementInert(ps[0].src, b);
      }
      var r := Settle(ps, b);
      assert r[1..] == Settle(ps[1..], b);
      forall k | 0 <= k < |ps| ensures WellFormed(r[k]) && (r[k].Tag? ==> !Managed(r[k].src, b)) {
        if k > 0 {
          assert r[k] == Settle(ps[1..], b)[k - 1];
        }
      }
    }
  }

  /**
   * Rewriting a second time changes nothing: the loaders contain no module tag, and the tags
   * that were kept are not the main chunk's.
   */
  lemma RewriteIdempotent(ps: seq<Piece>, b: Binding)
    requires AllWellFormed(ps) && BuildBinding(b)
    ensures Rewrite(Rewrite(Flatten(ps), b), b) == Rewrite(Flatten(ps), b)
  {
    RewriteStructured(ps, b);
    SettleFacts(ps, b);
    NoManagedTagUnchanged(Settle(ps, b), b);
  }

  // ---------------------------------------------------------------- a worked example

  /** A document holding one module tag between inert text: the tag, and only the tag, is
      replaced by what the binding gives for its `src`. */
  lemma {:induction false} SingleTagRewrite(pre: string, src: string, post: string, b: Binding)
    requires Inert(pre) && Inert(post) && src != [] && QuoteFree(src) && PosixPath.Absolute(b.cwd)
    ensures Rewrite(pre + ModuleTag(src) + post, b) == pre + Replacement(src, b) + post
  {
    var t := ModuleTag(src) + post;
    assert pre + ModuleTag(src) + post == pre + t;
    InertPrefix(pre, t, b);
    MatchTag(src, post);
    assert t[|ModuleTag(src)|..] == post;
    assert Rewrite(t, b) == Replacement(src, b) + Rewrite(post, b);
    InertUnchanged(post, b);
  }

  /** `<body>` + the tag of `/assets/app.abcd.js` + `</body>`, rewritten for the main chunk
      `app.abcd.js`: the tag becomes the loader for `/assets/app.abcd.js` and
      `/assets/app.abcd.legacy.js`, and nothing else changes. (The strings are parameters pinned by
      `requires`, since the verifier unfolds functions on literals eagerly.) */
  lemma SingleEntryExample(open: string, close: string, moduleId: string, legacyId: string, b: Binding)
    requires open == "<body>" && close == "</body>"
    requires moduleId == "/assets/app.abcd.js" && legacyId == "/assets/app.abcd.legacy.js"
    requires b.mainFileName == "app.abcd.js" && b.legacyFileName == "app.abcd.legacy.js"
    requires PosixPath.Absolute(b.cwd)
    ensures Rewrite(open + ModuleTag(moduleId) + close, b)
         == open + Loader.LoaderText(b.getLoader, moduleId, legacyId) + close
  {
    LeadingAngleInert(open);
    LeadingAngleInert(close);
    assert QuoteFree(moduleId);
    PosixPath.ExamplePaths(moduleId, b.legacyFileName, legacyId, b.cwd);
    SingleTagRewrite(open, moduleId, close, b);
  }
}
