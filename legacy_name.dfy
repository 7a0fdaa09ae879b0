/** The legacy bundle's file name: `fileName.replace(/\.js$/, '.legacy.js')`. */
module LegacyName {
  import opened Text
  import PosixPath

  const JsSuffix := ".js"
  const LegacySuffix := ".legacy.js"

  /** Replaces a final `.js` by `.legacy.js`; the `$` anchor means only the last three characters
      can match, so an earlier `.js` is never touched and a name without one is returned as is. */
  function LegacyFileName(name: string): (r: string)
    ensures EndsWith(name, JsSuffix) ==>
      && |r| == |name| + |LegacySuffix| - |JsSuffix|
      && r[..|name| - |JsSuffix|] == name[..|name| - |JsSuffix|]
      && EndsWith(r, LegacySuffix)
    ensures !EndsWith(name, JsSuffix) ==> r == name
  {
    if EndsWith(name, JsSuffix) then name[..|name| - |JsSuffix|] + LegacySuffix else name
  }

  /** The inverse rename, from the legacy name back to the modern one. */
  function ModernFileName(legacy: string): (r: string)
    ensures EndsWith(legacy, LegacySuffix) ==>
      && |r| == |legacy| - |LegacySuffix| + |JsSuffix|
      && r[..|legacy| - |LegacySuffix|] == legacy[..|legacy| - |LegacySuffix|]
      && EndsWith(r, JsSuffix)
    ensures !EndsWith(legacy, LegacySuffix) ==> r == legacy
  {
    if EndsWith(legacy, LegacySuffix) then legacy[..|legacy| - |LegacySuffix|] + JsSuffix else legacy
  }

  /** Renaming a `.js` file and renaming it back gives the original name. */
  lemma RoundTrip(name: string)
    requires EndsWith(name, JsSuffix)
    ensures ModernFileName(LegacyFileName(name)) == name
  {
    var stem := name[..|name| - |JsSuffix|];
    var legacy := LegacyFileName(name);
    assert legacy[..|legacy| - |LegacySuffix|] == stem;
    assert stem + JsSuffix == name;
  }

  /** Two different `.js` files never share a legacy file. */
  lemma Injective(a: string, b: string)
    requires EndsWith(a, JsSuffix) && EndsWith(b, JsSuffix)
    requires LegacyFileName(a) == LegacyFileName(b)
    ensures a == b
  {
    RoundTrip(a);
    RoundTrip(b);
  }

  /** The legacy file of a `.js` file is still a `.js` file, and differs from the modern one. */
  lemma StillJs(name: string)
    requires EndsWith(name, JsSuffix)
    ensures EndsWith(LegacyFileName(name), JsSuffix)
    ensures LegacyFileName(name) != name
  {
    var r := LegacyFileName(name);
    assert r[|r| - |JsSuffix|..] == r[|r| - |LegacySuffix|..][|LegacySuffix| - |JsSuffix|..];
  }

  /** A plain file name (no slash, not `.` or `..`) stays plain. */
  lemma KeepsPlain(name: string)
    requires PosixPath.Plain(name)
    ensures PosixPath.Plain(LegacyFileName(name))
  {
    if EndsWith(name, JsSuffix) {
      var stem := name[..|name| - |JsSuffix|];
      assert '/' !in stem;
      assert '/' !in LegacySuffix;
      assert LegacyFileName(name) == stem + LegacySuffix;
    }
  }

  /** Renaming adds no double quote. */
  lemma KeepsQuoteFree(name: string)
    requires QuoteFree(name)
    ensures QuoteFree(LegacyFileName(name))
  {
    if EndsWith(name, JsSuffix) {
      var stem := name[..|name| - |JsSuffix|];
      assert '"' !in stem;
      assert '"' !in LegacySuffix;
      assert LegacyFileName(name) == stem + LegacySuffix;
    }
  }

  lemma Example()
    ensures LegacyFileName("app.abcd.js") == "app.abcd.legacy.js"
    ensures LegacyFileName("app.js.js") == "app.js.legacy.js"
    ensures LegacyFileName("app.mjs") == "app.mjs"
    ensures LegacyFileName("style.css") == "style.css"
  {
    assert EndsWith("app.abcd.js", JsSuffix);
    assert EndsWith("app.js.js", JsSuffix);
    assert !EndsWith("app.mjs", JsSuffix);
    assert !EndsWith("style.css", JsSuffix);
  }
}
