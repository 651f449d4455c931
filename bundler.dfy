/** The bundle emitter, `createBundle`, attached to a composed handle under
    `__modclass`. It plans two output files, refuses to replace either of
    them unless allowed, writes a loader that re-creates the handle's
    properties from their source text and, when asked, writes a copy of the
    consuming class file that loads the bundle instead of the composer and
    registers its class globally.

    The file system is a set of existing paths plus the text of the class
    file; the files written are returned in order. */
module Bundler {
  import opened Text
  import opened Composer

  /** An output location: a directory and a file name in it. */
  datatype Path = Path(dir: string, name: string)

  /** An entry of `dependencies`. An absent or empty `path` or `type`
      falls back to its default, as JavaScript's `||` does. */
  datatype Dependency = Dependency(name: string, path: Option<string>, kind: Option<string>)

  /** The bundle options once merged over their defaults. `classBasename`
      is the file name part of `classPath`. */
  datatype Config = Config(
    filename: string,
    overwrite: bool,
    dependencies: seq<Dependency>,
    excludeProps: seq<string>,
    cloneClass: bool,
    classBasename: string,
    outputDir: string)

  datatype FileWrite = FileWrite(path: Path, text: string)

  datatype BundleResult = Success | FileExists(path: Path)

  /** `basename.split('.')[0]`: the file name up to its first dot. */
  function ClassFilename(basename: string): (r: string)
    ensures |r| <= |basename| && r == basename[..|r|] && '.' !in r
    ensures |r| < |basename| ==> basename[|r|] == '.'
  {
    Split(basename, '.')[0]
  }

  function BundlePath(cfg: Config): Path
  {
    Path(cfg.outputDir, cfg.filename)
  }

  function ClassPath(cfg: Config): Path
  {
    Path(cfg.outputDir, ClassFilename(cfg.classBasename) + ".bundle.js")
  }

  /** The existence checks made before anything is written: the bundle path
      first, then the class path, whether or not the class is cloned. */
  function Precheck(cfg: Config, existing: set<Path>): (r: BundleResult)
    ensures r.FileExists? <==> !cfg.overwrite && (BundlePath(cfg) in existing || ClassPath(cfg) in existing)
    ensures r.FileExists? ==> r.path == if BundlePath(cfg) in existing then BundlePath(cfg) else ClassPath(cfg)
  {
    if BundlePath(cfg) in existing && !cfg.overwrite then FileExists(BundlePath(cfg))
    else if ClassPath(cfg) in existing && !cfg.overwrite then FileExists(ClassPath(cfg))
    else Success
  }

  /** Once a bundle has been written, asking for it again without
      `overwrite` fails on the bundle path. */
  lemma SecondEmissionFails(cfg: Config, existing: set<Path>)
    requires !cfg.overwrite
    ensures Precheck(cfg, existing + {BundlePath(cfg)}) == FileExists(BundlePath(cfg))
  {
  }

  /** `x || fallback` for an optional string. */
  function OrElse(x: Option<string>, fallback: string): string
  {
    if x.Some? && x.value != "" then x.value else fallback
  }

  /** `[type || 'const', name, '=', "require('<path || ./name>');"].join(' ')`. */
  function DependencyLine(d: Dependency): string
  {
    OrElse(d.kind, "const") + " " + d.name + " = require('" + OrElse(d.path, "./" + d.name) + "');"
  }

  const HEADER: string := "module.exports = _this => { const _modclass = {"
  const FOOTER: string := "\t};\n\tfor (let prop in _modclass) { _this[prop] = _modclass[prop]; }\n};"

  /** The text a value becomes in the loader: a function's source, or the
      template interpolation of any other value. */
  function ToText(v: Value): string
  {
    match v
    case Func(source) => source
    case Data(text) => text
    case MarkerObject => "[object Object]"
  }

  function PropertyLine(key: string, v: Value): string
  {
    "\t" + key + ": " + ToText(v) + ","
  }

  /** A property is left out when its name is one of `excludeProps` or is
      the marker: membership in an array, compared as whole names. */
  predicate Excluded(cfg: Config, key: string)
  {
    key in cfg.excludeProps + [MARKER]
  }

  /** The names that get a line in the loader, in enumeration order. */
  function Kept(cfg: Config, keys: seq<string>): seq<string>
  {
    if keys == [] then []
    else Kept(cfg, keys[..|keys| - 1]) + (if Excluded(cfg, keys[|keys| - 1]) then [] else [keys[|keys| - 1]])
  }

  /** Walking one more name keeps it unless it is excluded. */
  lemma KeptSnoc(cfg: Config, keys: seq<string>, i: nat)
    requires i < |keys|
    ensures Kept(cfg, keys[..i + 1]) == Kept(cfg, keys[..i]) + (if Excluded(cfg, keys[i]) then [] else [keys[i]])
  {
    assert keys[..i + 1][..i] == keys[..i];
  }

  /** A name gets a loader line exactly when it is a property that is not
      excluded. */
  lemma {:induction false} KeptMembers(cfg: Config, keys: seq<string>)
    decreases |keys|
    ensures forall k :: k in Kept(cfg, keys) <==> k in keys && !Excluded(cfg, k)
  {
    if keys != [] {
      var init := keys[..|keys| - 1];
      KeptMembers(cfg, init);
      assert keys == init + [keys[|keys| - 1]];
    }
  }

  /** The loader lines follow enumeration order: they are the properties at
      the increasing positions `idx`, which are exactly the positions of
      names that are not excluded. */
  lemma {:induction false} KeptOrder(cfg: Config, keys: seq<string>) returns (idx: seq<nat>)
    decreases |keys|
    ensures |idx| == |Kept(cfg, keys)|
    ensures forall j :: 0 <= j < |idx| ==> idx[j] < |keys| && keys[idx[j]] == Kept(cfg, keys)[j]
    ensures forall j, l :: 0 <= j < l < |idx| ==> idx[j] < idx[l]
    ensures forall i :: 0 <= i < |keys| ==> (!Excluded(cfg, keys[i]) <==> i in idx)
  {
    if keys == [] {
      idx := [];
    } else {
      var n := |keys| - 1;
      var init := keys[..n];
      var idx' := KeptOrder(cfg, init);
      if Excluded(cfg, keys[n]) {
        idx := idx';
        assert n !in idx;
      } else {
        idx := idx' + [n];
      }
    }
  }

  function PropertyLines(keys: seq<string>, vals: map<string, Value>): seq<string>
    requires forall k :: k in keys ==> k in vals
  {
    seq(|keys|, i requires 0 <= i < |keys| => PropertyLine(keys[i], vals[keys[i]]))
  }

  /** One more kept property is one more line. */
  lemma PropertyLinesSnoc(keys: seq<string>, k: string, vals: map<string, Value>)
    requires forall x :: x in keys ==> x in vals
    requires k in vals
    ensures PropertyLines(keys + [k], vals) == PropertyLines(keys, vals) + [PropertyLine(k, vals[k])]
  {
  }

  function DependencyLines(deps: seq<Dependency>): seq<string>
  {
    seq(|deps|, i requires 0 <= i < |deps| => DependencyLine(deps[i]))
  }

  /** The lines of the loader for a handle with properties `p`. */
  function LoaderLines(cfg: Config, p: Props): seq<string>
    requires p.Valid()
  {
    KeptMembers(cfg, p.keys);
    DependencyLines(cfg.dependencies) + ["", HEADER] + PropertyLines(Kept(cfg, p.keys), p.vals) + [FOOTER]
  }

  /** The loader holds one require line per dependency, an empty line, the
      header, one line per kept property in enumeration order, and the
      footer. */
  lemma LoaderLayout(cfg: Config, p: Props)
    requires p.Valid()
    ensures var lines := LoaderLines(cfg, p);
      var d := |cfg.dependencies|;
      var kept := Kept(cfg, p.keys);
      && |lines| == d + |kept| + 3
      && (forall i :: 0 <= i < d ==> lines[i] == DependencyLine(cfg.dependencies[i]))
      && lines[d] == "" && lines[d + 1] == HEADER
      && (forall i :: 0 <= i < |kept| ==> kept[i] in p.vals && lines[d + 2 + i] == PropertyLine(kept[i], p.vals[kept[i]]))
      && lines[|lines| - 1] == FOOTER
  {
    KeptMembers(cfg, p.keys);
  }

  /** Builds the loader lines by walking the handle's properties. */
  method BuildLoader(h: Handle, cfg: Config) returns (output: seq<string>)
    requires h.Valid()
    ensures output == LoaderLines(cfg, h.State())
  {
    var head := DependencyLines(cfg.dependencies) + ["", HEADER];
    output := head;
    ghost var kept: seq<string> := [];
    var i := 0;
    while i < |h.keys|
      invariant 0 <= i <= |h.keys|
      invariant kept == Kept(cfg, h.keys[..i])
      invariant forall k :: k in kept ==> k in h.vals
      invariant output == head + PropertyLines(kept, h.vals)
    {
      var property := h.keys[i];
      KeptSnoc(cfg, h.keys, i);
      if !(property in cfg.excludeProps + [MARKER]) {
        PropertyLinesSnoc(kept, property, h.vals);
        output := output + [PropertyLine(property, h.vals[property])];
        kept := kept + [property];
      }
      i := i + 1;
    }
    assert h.keys[..i] == h.keys;
    output := output + [FOOTER];
  }

  // ---------------------------------------------------------------------
  // The class declaration pattern /class +(\w*) +?\{?/

  datatype ClassMatch = ClassMatch(full: string, name: string)

  /** The number of spaces starting at `k`. */
  function Spaces(s: string, k: nat): (n: nat)
    requires k <= |s|
    decreases |s| - k
    ensures k + n <= |s|
    ensures k + n == |s| || s[k + n] != ' '
  {
    if k < |s| && s[k] == ' ' then 1 + Spaces(s, k + 1) else 0
  }

  /** The number of word characters starting at `k`. */
  function WordChars(s: string, k: nat): (n: nat)
    requires k <= |s|
    decreases |s| - k
    ensures k + n <= |s|
    ensures k + n == |s| || !IsWordChar(s[k + n])
  {
    if k < |s| && IsWordChar(s[k]) then 1 + WordChars(s, k + 1) else 0
  }

  lemma {:induction false} WordCharsAll(s: string, k: nat)
    requires k <= |s|
    decreases |s| - k
    ensures forall i :: k <= i < k + WordChars(s, k) ==> IsWordChar(s[i])
  {
    if k < |s| && IsWordChar(s[k]) {
      WordCharsAll(s, k + 1);
    }
  }

  function Brace(s: string, k: nat): string
  {
    if k < |s| && s[k] == '{' then "{" else ""
  }

  /** The match of the pattern at the `class` that starts at `p`, with the
      backtracking of the regular expression engine: a name followed by a
      space is captured; failing that, two or more spaces match with an
      empty name (the last space serving as ` +?`). */
  function MatchAt(s: string, p: nat): (r: Option<ClassMatch>)
    requires StartsAt(s, p, "class")
    ensures r.Some? ==> 6 <= |r.value.full| && r.value.full[..5] == "class" && r.value.full[5] == ' '
  {
    var n := Spaces(s, p + 5);
    if n == 0 then None
    else
      var w := WordChars(s, p + 5 + n);
      var q := p + 5 + n + w;
      if w > 0 && q < |s| && s[q] == ' ' then
        Some(ClassMatch(s[p..q + 1] + Brace(s, q + 1), s[p + 5 + n..q]))
      else if n >= 2 then
        Some(ClassMatch(s[p..p + 5 + n] + Brace(s, p + 5 + n), ""))
      else None
  }

  /** The leftmost match of the pattern at or after `from`. */
  function FindClass(s: string, from: nat): (r: Option<ClassMatch>)
    decreases |s| - from
    ensures r.Some? ==> 6 <= |r.value.full| && r.value.full[..5] == "class" && r.value.full[5] == ' '
  {
    if from + 5 > |s| then None
    else if StartsAt(s, from, "class") && MatchAt(s, from).Some? then MatchAt(s, from)
    else FindClass(s, from + 1)
  }

  /** The name a match captures is made of word characters. */
  lemma MatchAtName(s: string, p: nat)
    requires StartsAt(s, p, "class")
    ensures MatchAt(s, p).Some? ==>
      forall i :: 0 <= i < |MatchAt(s, p).value.name| ==> IsWordChar(MatchAt(s, p).value.name[i])
  {
    var n := Spaces(s, p + 5);
    if n > 0 {
      WordCharsAll(s, p + 5 + n);
    }
  }

  /** What FindClass reports is a match at some `class` at or after
      `from`. */
  lemma {:induction false} FindClassAt(s: string, from: nat) returns (k: nat)
    decreases |s| - from
    requires FindClass(s, from).Some?
    ensures from <= k && StartsAt(s, k, "class") && FindClass(s, from) == MatchAt(s, k)
  {
    if StartsAt(s, from, "class") && MatchAt(s, from).Some? {
      k := from;
    } else {
      k := FindClassAt(s, from + 1);
    }
  }

  /** A match at some `class` at or after `from` is found: FindClass
      misses no match. */
  lemma {:induction false} FindClassComplete(s: string, from: nat, k: nat)
    decreases |s| - from
    requires from <= k && StartsAt(s, k, "class") && MatchAt(s, k).Some?
    ensures FindClass(s, from).Some?
  {
    if !(StartsAt(s, from, "class") && MatchAt(s, from).Some?) {
      FindClassComplete(s, from + 1, k);
    }
  }

  /** FindClass reports the leftmost match: the one at the first `class`
      at or after `from` where the pattern matches. */
  lemma {:induction false} FindClassLeftmost(s: string, from: nat, k: nat)
    decreases k - from
    requires from <= k && StartsAt(s, k, "class") && MatchAt(s, k).Some?
    requires forall j :: from <= j < k && StartsAt(s, j, "class") ==> MatchAt(s, j).None?
    ensures FindClass(s, from) == MatchAt(s, k)
  {
    if from < k {
      FindClassLeftmost(s, from + 1, k);
    }
  }

  /** What FindClass reports is a match at some `class` at or after
      `from`, whose captured name is made of word characters; without such
      an occurrence there is no match. */
  lemma FindClassSound(s: string, from: nat)
    ensures FindClass(s, from).Some? ==>
      exists k :: from <= k && StartsAt(s, k, "class") && FindClass(s, from) == MatchAt(s, k)
    ensures FindClass(s, from).Some? ==>
      forall i :: 0 <= i < |FindClass(s, from).value.name| ==> IsWordChar(FindClass(s, from).value.name[i])
  {
    if FindClass(s, from).Some? {
      var k := FindClassAt(s, from);
      MatchAtName(s, k);
    }
  }

  /** `line.trim().match(/class +(\w*) +?\{?/)`. */
  function ClassDecl(line: string): Option<ClassMatch>
  {
    FindClass(Trim(line), 0)
  }

  /** A run of `w` word characters ending before a non-word character
      is counted exactly. */
  lemma {:induction false} WordRun(s: string, k: nat, w: nat)
    decreases w
    requires k + w < |s|
    requires forall i :: k <= i < k + w ==> IsWordChar(s[i])
    requires !IsWordChar(s[k + w])
    ensures WordChars(s, k) == w
  {
    if w > 0 {
      WordRun(s, k + 1, w - 1);
    }
  }

  /** The pattern matched against a text that starts `class <Name> `,
      for a non-empty name of word characters. */
  lemma MatchNamed(s: string, name: string)
    requires |name| >= 1 && forall i :: 0 <= i < |name| ==> IsWordChar(name[i])
    requires |s| > 6 + |name| && StartsAt(s, 0, "class") && s[5] == ' '
    requires s[6..6 + |name|] == name && s[6 + |name|] == ' '
    ensures FindClass(s, 0) == Some(ClassMatch(s[..7 + |name|] + Brace(s, 7 + |name|), name))
  {
    var q := 6 + |name|;
    forall i | 6 <= i < q ensures IsWordChar(s[i]) {
      assert s[i] == name[i - 6];
    }
    WordRun(s, 6, |name|);
    assert Spaces(s, 6) == 0 by { assert IsWordChar(s[6]); }
    assert Spaces(s, 5) == 1;
    assert MatchAt(s, 0) == Some(ClassMatch(s[0..q + 1] + Brace(s, q + 1), s[6..q]));
  }

  /** A text that starts `class <Name> ` has the shape MatchNamed asks for. */
  lemma HeadShape(s: string, name: string)
    requires |s| >= 7 + |name| && s[..7 + |name|] == "class " + name + " "
    ensures StartsAt(s, 0, "class") && s[5] == ' '
    ensures s[6..6 + |name|] == name && s[6 + |name|] == ' '
  {
    var head := "class " + name + " ";
    assert forall i :: 0 <= i < |head| ==> s[i] == head[i];
    assert s[6..6 + |name|] == head[6..6 + |name|];
  }

  /** A line that starts `class <Name> ` and does not end in white space
      is matched at its start. */
  lemma DeclaredLine(s: string, name: string)
    requires |name| >= 1 && forall i :: 0 <= i < |name| ==> IsWordChar(name[i])
    requires |s| > 6 + |name| && StartsAt(s, 0, "class") && s[5] == ' '
    requires s[6..6 + |name|] == name && s[6 + |name|] == ' '
    requires !IsJsSpace(s[|s| - 1])
    ensures ClassDecl(s) == Some(ClassMatch(s[..7 + |name|] + Brace(s, 7 + |name|), name))
  {
    assert s[0] == "class"[0];
    assert Trim(s) == s;
    MatchNamed(s, name);
  }

  /** A declaration written `class <Name> <rest>`, with a non-empty name of
      word characters and nothing trimmable at its end, is recognised, and
      the name captured is `<Name>`. */
  lemma DeclaredName(name: string, rest: string)
    requires |name| >= 1 && forall i :: 0 <= i < |name| ==> IsWordChar(name[i])
    requires |rest| >= 1 && !IsJsSpace(rest[|rest| - 1])
    ensures ClassDecl("class " + name + " " + rest)
         == Some(ClassMatch("class " + name + " " + Brace(rest, 0), name))
  {
    var head := "class " + name + " ";
    var s := head + rest;
    assert s[..|head|] == head && s[|s| - 1] == rest[|rest| - 1];
    DeclaredPrefix(s, name);
    assert Brace(s, |head|) == Brace(rest, 0);
  }

  /** The same, for any line that starts `class <Name> `. */
  lemma DeclaredPrefix(s: string, name: string)
    requires |name| >= 1 && forall i :: 0 <= i < |name| ==> IsWordChar(name[i])
    requires |s| >= 7 + |name| && s[..7 + |name|] == "class " + name + " "
    requires !IsJsSpace(s[|s| - 1])
    ensures ClassDecl(s) == Some(ClassMatch("class " + name + " " + Brace(s, 7 + |name|), name))
  {
    HeadShape(s, name);
    DeclaredLine(s, name);
  }

  /** A line without the letters `class` declares nothing. */
  lemma NoClassWord(line: string)
    requires !Contains(Trim(line), "class")
    ensures ClassDecl(line).None?
  {
    ContainsIff(Trim(line), "class");
    FindClassSound(Trim(line), 0);
  }

  // ---------------------------------------------------------------------
  // Rewriting the first call /require\(.*?\)/

  /** The first `)` at or after `k` that `.` can reach: no line terminator
      comes before it. */
  function CloseParen(s: string, k: nat): (r: Option<nat>)
    decreases |s| - k
    ensures r.Some? ==> k <= r.value < |s| && s[r.value] == ')'
  {
    if k >= |s| then None
    else if s[k] == ')' then Some(k)
    else if IsLineTerminator(s[k]) then None
    else CloseParen(s, k + 1)
  }

  /** The `)` CloseParen reports is the first one, and `.` matches every
      character before it. */
  lemma {:induction false} CloseParenFirst(s: string, k: nat)
    decreases |s| - k
    ensures CloseParen(s, k).Some? ==>
      forall i :: k <= i < CloseParen(s, k).value ==> s[i] != ')' && !IsLineTerminator(s[i])
  {
    if k < |s| && s[k] != ')' && !IsLineTerminator(s[k]) {
      CloseParenFirst(s, k + 1);
    }
  }

  /** The leftmost match of /require\(.*?\)/ at or after `from`, as the
      bounds `(b, e)` of the matched text `s[b..e]`. */
  function FindRequireCall(s: string, from: nat): (r: Option<(nat, nat)>)
    decreases |s| - from
    ensures r.Some? ==> from <= r.value.0 && r.value.0 + 9 <= r.value.1 <= |s|
    ensures r.Some? ==> StartsAt(s, r.value.0, "require(") && s[r.value.1 - 1] == ')'
  {
    if from + 8 > |s| then None
    else if StartsAt(s, from, "require(") && CloseParen(s, from + 8).Some? then
      Some((from, CloseParen(s, from + 8).value + 1))
    else FindRequireCall(s, from + 1)
  }

  /** The replacement text of `String.prototype.replace` for a replacement
      pattern `t`: `$$`, `$&`, `` $` `` and `$'` stand for a dollar sign,
      the match, the text before it and the text after it; everything else
      is literal (the pattern has no capture groups). */
  function Substitute(t: string, matched: string, before: string, after: string): (r: string)
    decreases |t|
    ensures '$' !in t ==> r == t
  {
    if |t| == 0 then ""
    else if t[0] == '$' && |t| >= 2 && t[1] == '$' then "$" + Substitute(t[2..], matched, before, after)
    else if t[0] == '$' && |t| >= 2 && t[1] == '&' then matched + Substitute(t[2..], matched, before, after)
    else if t[0] == '$' && |t| >= 2 && t[1] == '`' then before + Substitute(t[2..], matched, before, after)
    else if t[0] == '$' && |t| >= 2 && t[1] == '\'' then after + Substitute(t[2..], matched, before, after)
    else [t[0]] + Substitute(t[1..], matched, before, after)
  }

  /** `line.replace(/require\(.*?\)/, template)`. */
  function ReplaceRequireCall(line: string, template: string): string
  {
    var call := FindRequireCall(line, 0);
    if call.None? then line
    else
      var b, e := call.value.0, call.value.1;
      line[..b] + Substitute(template, line[b..e], line[..b], line[e..]) + line[e..]
  }

  /** A line with a `require(...)` call gets its first call, and only that,
      replaced by a require of the bundle file (for a file name without `$`);
      a line without one is left as it is. */
  lemma DerefRewrite(line: string, filename: string)
    requires '$' !in filename
    ensures FindRequireCall(line, 0).None? ==> ReplaceRequireCall(line, RequireTemplate(filename)) == line
    ensures FindRequireCall(line, 0).Some? ==>
      var b, e := FindRequireCall(line, 0).value.0, FindRequireCall(line, 0).value.1;
      && StartsAt(line, b, "require(") && line[e - 1] == ')'
      && (forall i :: b + 8 <= i < e - 1 ==> line[i] != ')')
      && (forall k :: 0 <= k < b ==> !StartsAt(line, k, "require(") || CloseParen(line, k + 8).None?)
      && ReplaceRequireCall(line, RequireTemplate(filename)) == line[..b] + "require('./" + filename + "')" + line[e..]
  {
    assert '$' !in RequireTemplate(filename);
    FirstRequireCall(line, 0);
    RequireCallEnd(line, 0);
    var r := FindRequireCall(line, 0);
    if r.Some? {
      CloseParenFirst(line, r.value.0 + 8);
    }
  }

  /** The match ends at the first `)` after the `require(` it starts with. */
  lemma {:induction false} RequireCallEnd(s: string, from: nat)
    decreases |s| - from
    ensures FindRequireCall(s, from).Some? ==>
      CloseParen(s, FindRequireCall(s, from).value.0 + 8) == Some(FindRequireCall(s, from).value.1 - 1)
  {
    if from + 8 <= |s| && !(StartsAt(s, from, "require(") && CloseParen(s, from + 8).Some?) {
      RequireCallEnd(s, from + 1);
    }
  }

  /** No `require(` before the one FindRequireCall reports starts a match. */
  lemma {:induction false} FirstRequireCall(s: string, from: nat)
    decreases |s| - from
    ensures FindRequireCall(s, from).Some? ==>
      forall k :: from <= k < FindRequireCall(s, from).value.0 ==> !StartsAt(s, k, "require(") || CloseParen(s, k + 8).None?
  {
    if from + 8 <= |s| && !(StartsAt(s, from, "require(") && CloseParen(s, from + 8).Some?) {
      FirstRequireCall(s, from + 1);
    }
  }

  // ---------------------------------------------------------------------
  // Cloning the class file

  /** What the tests of the scan answer on one line: its class declaration,
      whether it names both `require` and the library's directory, whether
      it contains `module.exports`, and the line with its first require call
      redirected to the bundle. */
  datatype LineFacts = LineFacts(decl: Option<ClassMatch>, deref: bool, exportsWord: bool, redirected: string)

  /** `inVal('require', line) && inVal(masterName, line)`. */
  predicate IsDerefLine(line: string, masterName: string)
  {
    Contains(line, "require") && Contains(line, masterName)
  }

  function RequireTemplate(filename: string): string
  {
    "require('./" + filename + "')"
  }

  function Facts(line: string, filename: string, masterName: string): LineFacts
  {
    LineFacts(ClassDecl(line), IsDerefLine(line, masterName), Contains(line, "module.exports"),
              ReplaceRequireCall(line, RequireTemplate(filename)))
  }

  function FactsOf(lines: seq<string>, filename: string, masterName: string): (facts: seq<LineFacts>)
    ensures |facts| == |lines|
    ensures forall i :: 0 <= i < |lines| ==> facts[i] == Facts(lines[i], filename, masterName)
  {
    seq(|lines|, i requires 0 <= i < |lines| => Facts(lines[i], filename, masterName))
  }

  /** The class name latched after scanning lines with `facts`: the
      declaration of the first line that has one. */
  function Latch(facts: seq<LineFacts>): Option<ClassMatch>
  {
    if facts == [] then None
    else
      var prev := Latch(facts[..|facts| - 1]);
      if prev.Some? then prev else facts[|facts| - 1].decl
  }

  /** Until a declaration is seen the latch is empty. */
  lemma {:induction false} LatchEmpty(facts: seq<LineFacts>)
    decreases |facts|
    ensures Latch(facts).None? <==> forall j :: 0 <= j < |facts| ==> facts[j].decl.None?
  {
    if facts != [] {
      var init := facts[..|facts| - 1];
      LatchEmpty(init);
      assert forall j :: 0 <= j < |init| ==> facts[j] == init[j];
    }
  }

  /** Once a declaration is seen the latch holds the first one, at `f`. */
  lemma {:induction false} LatchIsFirstDecl(facts: seq<LineFacts>) returns (f: nat)
    decreases |facts|
    requires Latch(facts).Some?
    ensures f < |facts| && Latch(facts) == facts[f].decl
    ensures forall j :: 0 <= j < f ==> facts[j].decl.None?
  {
    var init := facts[..|facts| - 1];
    assert forall j :: 0 <= j < |init| ==> facts[j] == init[j];
    if Latch(init).Some? {
      f := LatchIsFirstDecl(init);
    } else {
      LatchEmpty(init);
      f := |facts| - 1;
    }
  }

  /** Once latched, the class name never changes. */
  lemma {:induction false} LatchStable(facts: seq<LineFacts>, i: nat, j: nat)
    decreases j - i
    requires i <= j <= |facts| && Latch(facts[..i]).Some?
    ensures Latch(facts[..j]) == Latch(facts[..i])
  {
    if i < j {
      LatchStable(facts, i, j - 1);
      assert facts[..j][..j - 1] == facts[..j - 1];
    }
  }

  /** Line `i` is an export line: a declaration has been latched by then
      and the line contains `module.exports`. */
  predicate IsExportLine(facts: seq<LineFacts>, i: nat)
    requires i < |facts|
  {
    Latch(facts[..i + 1]).Some? && facts[i].exportsWord
  }

  function GlobalLine(id: string): string
  {
    "global." + id + " = " + id + ";"
  }

  function DerefFallback(filename: string): string
  {
    "const modclass = require('./" + filename + "');"
  }

  /** `${className || classFilename}`: with a class latched this is the
      match array, which interpolates as the whole match and the captured
      name joined by a comma. */
  function FallbackId(latch: Option<ClassMatch>, classFilename: string): string
  {
    match latch
    case None => classFilename
    case Some(m) => m.full + "," + m.name
  }

  /** What a line becomes once `latch` is the declaration latched after
      it: with a declaration latched, a line containing `module.exports`
      becomes the global registration of the captured name; otherwise a
      line naming `require` and the library directory has its first call
      redirected; any other line is kept. */
  function StepLine(latch: Option<ClassMatch>, line: string, fact: LineFacts): string
  {
    if latch.Some? && fact.exportsWord then GlobalLine(latch.value.name)
    else if fact.deref then fact.redirected
    else line
  }

  /** Line `i` of the scanned file. */
  function RewrittenLine(lines: seq<string>, facts: seq<LineFacts>, i: nat): string
    requires i < |lines| == |facts|
  {
    StepLine(Latch(facts[..i + 1]), lines[i], facts[i])
  }

  predicate AnyDeref(facts: seq<LineFacts>)
  {
    exists i :: 0 <= i < |facts| && facts[i].deref
  }

  predicate AnyExport(facts: seq<LineFacts>)
  {
    exists i :: 0 <= i < |facts| && IsExportLine(facts, i)
  }

  /** The state of the scan: the lines rewritten so far, the latched
      class declaration and the two flags. */
  datatype ScanState = ScanState(body: seq<string>, className: Option<ClassMatch>, addedDeref: bool, addedExport: bool)

  /** One step of the scan, on the next line. */
  function ScanStep(st: ScanState, line: string, fact: LineFacts): ScanState
  {
    var latch := if st.className.Some? then st.className else fact.decl;
    ScanState(st.body + [StepLine(latch, line, fact)], latch,
              st.addedDeref || fact.deref, st.addedExport || (latch.Some? && fact.exportsWord))
  }

  /** The scan over `lines`, one step per line from the first. */
  function Scan(lines: seq<string>, facts: seq<LineFacts>): ScanState
    requires |facts| == |lines|
  {
    if lines == [] then ScanState([], None, false, false)
    else
      var n := |lines| - 1;
      ScanStep(Scan(lines[..n], facts[..n]), lines[n], facts[n])
  }

  /** Scanning one more line is one more step. */
  lemma ScanSnoc(lines: seq<string>, facts: seq<LineFacts>, n: nat)
    requires n < |lines| == |facts|
    ensures Scan(lines[..n + 1], facts[..n + 1]) == ScanStep(Scan(lines[..n], facts[..n]), lines[n], facts[n])
  {
    assert lines[..n + 1][..n] == lines[..n];
    assert facts[..n + 1][..n] == facts[..n];
  }

  /** The scan state after `n` lines, with the list of lines rewritten in
      place up to `n`, advances by one step when line `n` is rewritten. */
  lemma ScanAdvance(lines: seq<string>, facts: seq<LineFacts>, n: nat, body: seq<string>,
                    st: ScanState, latch: Option<ClassMatch>, rewritten: string)
    requires n < |lines| == |facts| == |body|
    requires ScanState(body[..n], st.className, st.addedDeref, st.addedExport) == Scan(lines[..n], facts[..n])
    requires latch == (if st.className.Some? then st.className else facts[n].decl)
    requires rewritten == StepLine(latch, lines[n], facts[n])
    ensures ScanState(body[n := rewritten][..n + 1], latch, st.addedDeref || facts[n].deref,
                      st.addedExport || (latch.Some? && facts[n].exportsWord))
         == Scan(lines[..n + 1], facts[..n + 1])
  {
    ScanSnoc(lines, facts, n);
    assert body[n := rewritten][..n + 1] == body[..n] + [rewritten];
  }

  /** A line is rewritten the same way in any longer file. */
  lemma RewrittenPrefix(lines: seq<string>, facts: seq<LineFacts>, n: nat, i: nat)
    requires i < n <= |lines| == |facts|
    ensures RewrittenLine(lines[..n], facts[..n], i) == RewrittenLine(lines, facts, i)
    ensures IsExportLine(facts[..n], i) == IsExportLine(facts, i)
  {
    assert facts[..n][..i + 1] == facts[..i + 1];
  }

  /** The flags of a file are those of all but its last line, or'ed with
      the rule firing on the last line. */
  lemma AnyLast(facts: seq<LineFacts>)
    requires facts != []
    ensures var n := |facts| - 1;
      && AnyDeref(facts) == (AnyDeref(facts[..n]) || facts[n].deref)
      && AnyExport(facts) == (AnyExport(facts[..n]) || IsExportLine(facts, n))
  {
    var n := |facts| - 1;
    if AnyDeref(facts) && !facts[n].deref {
      var i :| 0 <= i < |facts| && facts[i].deref;
      assert facts[..n][i] == facts[i];
    }
    AnyExportLast(facts);
  }

  lemma AnyExportLast(facts: seq<LineFacts>)
    requires facts != []
    ensures var n := |facts| - 1;
      AnyExport(facts) == (AnyExport(facts[..n]) || IsExportLine(facts, n))
  {
    var n := |facts| - 1;
    var init := facts[..n];
    forall i | 0 <= i < n
      ensures IsExportLine(init, i) == IsExportLine(facts, i)
    {
      assert init[..i + 1] == facts[..i + 1];
    }
    if AnyExport(facts) && !IsExportLine(facts, n) {
      var i :| 0 <= i < |facts| && IsExportLine(facts, i);
      assert i < n && IsExportLine(init, i);
    }
  }

  /** The scan does what the rule for each line says: every line is
      rewritten as RewrittenLine says, the name latched is Latch's, and each
      flag is set exactly when its rule fired on some line. */
  lemma {:induction false} ScanMeaning(lines: seq<string>, facts: seq<LineFacts>)
    requires |facts| == |lines|
    decreases |lines|
    ensures var st := Scan(lines, facts);
      && |st.body| == |lines|
      && st.className == Latch(facts)
      && (forall i :: 0 <= i < |lines| ==> st.body[i] == RewrittenLine(lines, facts, i))
      && st.addedDeref == AnyDeref(facts)
      && st.addedExport == AnyExport(facts)
  {
    if lines != [] {
      var n := |lines| - 1;
      ScanMeaning(lines[..n], facts[..n]);
      AnyLast(facts);
      var st := Scan(lines, facts);
      assert facts[..n + 1] == facts;
      forall i | 0 <= i < n
        ensures st.body[i] == RewrittenLine(lines, facts, i)
      {
        RewrittenPrefix(lines, facts, n, i);
      }
    }
  }

  /** `splice(at, 0, x)`: the lines before `at` stay, `x` comes next, and
      the rest move up by one. */
  lemma Inserted(body: seq<string>, at: nat, x: string)
    requires at <= |body|
    ensures var r := body[..at] + [x] + body[at..];
      && |r| == |body| + 1 && r[at] == x
      && (forall i :: 0 <= i < at ==> r[i] == body[i])
      && (forall i :: at <= i < |body| ==> r[i + 1] == body[i])
  {
  }

  /** The lines of the cloned class file, for lines whose tests answer
      `facts`. Each input line keeps its index, except that the require
      fallback, added when no line was redirected, goes in at index 1
      (index 0 of an empty file); the global fallback, added when no export
      line was rewritten, goes at the end. */
  function Clone(lines: seq<string>, facts: seq<LineFacts>, filename: string, classFilename: string): (out: seq<string>)
    requires |facts| == |lines|
    ensures |out| == |lines| + (if AnyDeref(facts) then 0 else 1) + (if AnyExport(facts) then 0 else 1)
    ensures AnyDeref(facts) ==> forall i :: 0 <= i < |lines| ==> out[i] == RewrittenLine(lines, facts, i)
    ensures !AnyDeref(facts) && |lines| == 0 ==> out[0] == DerefFallback(filename)
    ensures !AnyDeref(facts) && |lines| >= 1 ==>
      && out[0] == RewrittenLine(lines, facts, 0)
      && out[1] == DerefFallback(filename)
      && forall i :: 1 <= i < |lines| ==> out[i + 1] == RewrittenLine(lines, facts, i)
    ensures !AnyExport(facts) ==> out[|out| - 1] == GlobalLine(FallbackId(Latch(facts), classFilename))
  {
    ScanMeaning(lines, facts);
    var st := Scan(lines, facts);
    var at := if |st.body| == 0 then 0 else 1;
    Inserted(st.body, at, DerefFallback(filename));
    var withDeref := if st.addedDeref then st.body else st.body[..at] + [DerefFallback(filename)] + st.body[at..];
    if st.addedExport then withDeref else withDeref + [GlobalLine(FallbackId(st.className, classFilename))]
  }

  /** The cloned class file, the tests run on its own lines. */
  function CloneLines(lines: seq<string>, filename: string, masterName: string, classFilename: string): seq<string>
  {
    Clone(lines, FactsOf(lines, filename, masterName), filename, classFilename)
  }

  /** The latch closes on the first declaration `f` and stays closed:
      no line before it is an export line, and from it on a line is one
      exactly when it contains `module.exports`. */
  lemma ExportLatch(facts: seq<LineFacts>, f: nat)
    requires f < |facts| && facts[f].decl.Some?
    requires forall j :: 0 <= j < f ==> facts[j].decl.None?
    ensures forall i :: 0 <= i < f ==> !IsExportLine(facts, i)
    ensures forall i :: f <= i < |facts| ==>
      (IsExportLine(facts, i) <==> facts[i].exportsWord) && Latch(facts[..i + 1]) == facts[f].decl
  {
    forall i | 0 <= i < f ensures !IsExportLine(facts, i) {
      LatchEmpty(facts[..i + 1]);
    }
    assert Latch(facts[..f + 1]) == facts[f].decl by {
      LatchEmpty(facts[..f]);
      assert facts[..f + 1][..f] == facts[..f];
    }
    forall j | f < j <= |facts|
      ensures Latch(facts[..j]) == facts[f].decl
    {
      LatchStable(facts, f + 1, j);
    }
  }

  /** Lines before the first declaration are never turned into a global
      registration; from it on, every line containing `module.exports` is,
      always with the first declaration's name. */
  lemma ExportLines(lines: seq<string>, filename: string, masterName: string, f: nat)
    requires f < |lines| && ClassDecl(lines[f]).Some?
    requires forall j :: 0 <= j < f ==> ClassDecl(lines[j]).None?
    ensures var facts := FactsOf(lines, filename, masterName);
      && (forall i :: 0 <= i < f ==> !IsExportLine(facts, i))
      && (forall i :: f <= i < |lines| ==>
            (IsExportLine(facts, i) <==> Contains(lines[i], "module.exports"))
            && Latch(facts[..i + 1]) == ClassDecl(lines[f]))
  {
    var facts := FactsOf(lines, filename, masterName);
    assert facts[f].decl == ClassDecl(lines[f]);
    forall j | 0 <= j < f ensures facts[j].decl.None? {
      assert facts[j].decl == ClassDecl(lines[j]);
    }
    ExportLatch(facts, f);
    forall i | f <= i < |lines|
      ensures IsExportLine(facts, i) <==> Contains(lines[i], "module.exports")
    {
      assert facts[i].exportsWord == Contains(lines[i], "module.exports");
    }
  }

  /** From the first declaration on, a line containing `module.exports`
      is rewritten to `global.<Name> = <Name>;` with that declaration's
      captured name. */
  lemma ExportRewrite(lines: seq<string>, filename: string, masterName: string, f: nat)
    requires f < |lines| && ClassDecl(lines[f]).Some?
    requires forall j :: 0 <= j < f ==> ClassDecl(lines[j]).None?
    ensures forall i :: f <= i < |lines| && Contains(lines[i], "module.exports") ==>
      RewrittenLine(lines, FactsOf(lines, filename, masterName), i) == GlobalLine(ClassDecl(lines[f]).value.name)
  {
    var facts := FactsOf(lines, filename, masterName);
    ExportLines(lines, filename, masterName, f);
    forall i | f <= i < |lines| && Contains(lines[i], "module.exports")
      ensures RewrittenLine(lines, facts, i) == GlobalLine(ClassDecl(lines[f]).value.name)
    {
      assert IsExportLine(facts, i);
    }
  }

  /** Without any declaration nothing is latched: no export line is
      rewritten, every line is rewritten by the redirect rule alone, and
      the registration of the class file's base name ends the clone. */
  lemma NoLatch(lines: seq<string>, facts: seq<LineFacts>, filename: string, classFilename: string)
    requires |facts| == |lines|
    requires forall j :: 0 <= j < |facts| ==> facts[j].decl.None?
    ensures !AnyExport(facts)
    ensures forall i :: 0 <= i < |lines| ==> RewrittenLine(lines, facts, i) == StepLine(None, lines[i], facts[i])
    ensures var out := Clone(lines, facts, filename, classFilename);
      out[|out| - 1] == GlobalLine(classFilename)
  {
    forall j | 1 <= j <= |facts| ensures Latch(facts[..j]).None? {
      LatchEmpty(facts[..j]);
    }
    LatchEmpty(facts);
  }

  /** A file with no class declaration keeps every line but the redirected
      requires, and gets the global registration of the class file's own
      base name as its last line. */
  lemma NoDeclarationFallback(lines: seq<string>, filename: string, masterName: string, classFilename: string)
    requires forall j :: 0 <= j < |lines| ==> ClassDecl(lines[j]).None?
    ensures var facts := FactsOf(lines, filename, masterName);
      && !AnyExport(facts)
      && (forall i :: 0 <= i < |lines| ==>
            RewrittenLine(lines, facts, i)
              == if IsDerefLine(lines[i], masterName) then ReplaceRequireCall(lines[i], RequireTemplate(filename)) else lines[i])
    ensures var out := CloneLines(lines, filename, masterName, classFilename);
      |out| >= 1 && out[|out| - 1] == GlobalLine(classFilename)
  {
    var facts := FactsOf(lines, filename, masterName);
    NoLatch(lines, facts, filename, classFilename);
  }

  /** The body of the scan for one line: the redirect test, the latch of
      the class name, and the export test, the later rewrite winning. */
  method ScanLine(line: string, className: Option<ClassMatch>, classFound: bool, filename: string, masterName: string)
    returns (rewritten: string, className': Option<ClassMatch>, classFound': bool, deref: bool, exports: bool)
    requires classFound == className.Some?
    ensures var fact := Facts(line, filename, masterName);
      && className' == (if className.Some? then className else fact.decl)
      && classFound' == className'.Some?
      && deref == fact.deref
      && exports == (className'.Some? && fact.exportsWord)
      && rewritten == StepLine(className', line, fact)
  {
    rewritten := line;
    deref, exports := false, false;
    if Contains(line, "require") && Contains(line, masterName) {
      rewritten := ReplaceRequireCall(line, RequireTemplate(filename));
      deref := true;
    }
    className' := if classFound then className else ClassDecl(line);
    classFound' := if classFound then true else className'.Some?;
    if classFound' && Contains(line, "module.exports") {
      rewritten := GlobalLine(className'.value.name);
      exports := true;
    }
  }

  /** The scan over the lines of the class file, rewriting the list of
      lines in place; its result is Scan's, whose meaning ScanMeaning
      gives. */
  method ScanLines(lines: seq<string>, filename: string, masterName: string, ghost facts: seq<LineFacts>)
    returns (cloneClass: seq<string>, className: Option<ClassMatch>, addedDeref: bool, addedExport: bool)
    requires |facts| == |lines|
    requires forall i {:trigger Facts(lines[i], filename, masterName)} :: 0 <= i < |lines| ==> facts[i] == Facts(lines[i], filename, masterName)
    ensures ScanState(cloneClass, className, addedDeref, addedExport) == Scan(lines, facts)
  {
    cloneClass := lines;
    var classFound := false;
    className := None;
    addedDeref, addedExport := false, false;
    var index := 0;
    while index < |lines|
      invariant 0 <= index <= |lines| == |cloneClass|
      invariant classFound == className.Some?
      invariant ScanState(cloneClass[..index], className, addedDeref, addedExport) == Scan(lines[..index], facts[..index])
    {
      var line := lines[index];
      ghost var before := ScanState([], className, addedDeref, addedExport);
      var rewritten, deref, exports;
      rewritten, className, classFound, deref, exports := ScanLine(line, className, classFound, filename, masterName);
      assert facts[index] == Facts(line, filename, masterName);
      ScanAdvance(lines, facts, index, cloneClass, before, className, rewritten);
      addedDeref := addedDeref || deref;
      addedExport := addedExport || exports;
      cloneClass := cloneClass[index := rewritten];
      index := index + 1;
    }
    assert lines[..index] == lines && facts[..index] == facts;
    assert cloneClass[..index] == cloneClass;
  }

  /** The clone rewrite as the source runs it: the scan over the lines,
      then the two fallbacks. */
  method CloneRewrite(lines: seq<string>, filename: string, masterName: string, classFilename: string)
    returns (out: seq<string>, addedDeref: bool, addedExport: bool)
    ensures out == CloneLines(lines, filename, masterName, classFilename)
    ensures addedDeref == AnyDeref(FactsOf(lines, filename, masterName))
    ensures addedExport == AnyExport(FactsOf(lines, filename, masterName))
  {
    var className;
    ghost var facts := FactsOf(lines, filename, masterName);
    out, className, addedDeref, addedExport := ScanLines(lines, filename, masterName, facts);
    ScanMeaning(lines, facts);
    if !addedDeref {
      var at := if |out| == 0 then 0 else 1;
      out := out[..at] + [DerefFallback(filename)] + out[at..];
    }
    if !addedExport {
      out := out + [GlobalLine(FallbackId(className, classFilename))];
    }
  }

  /** `createBundle`: the checks, the loader, and the class clone when
      asked for. Returns the result, the files written in order, and
      whether each of the two clone warnings was logged. */
  method CreateBundle(h: Handle, cfg: Config, existing: set<Path>, masterName: string, classText: string)
    returns (result: BundleResult, writes: seq<FileWrite>, warnDeref: bool, warnExport: bool)
    requires h.Valid()
    ensures result == Precheck(cfg, existing)
    ensures result.FileExists? ==> writes == [] && !warnDeref && !warnExport
    ensures var lines := Split(classText, '\n');
      result.Success? ==>
        && writes == [FileWrite(BundlePath(cfg), Join(LoaderLines(cfg, h.State()), "\n"))]
          + (if cfg.cloneClass
             then [FileWrite(ClassPath(cfg), Join(CloneLines(lines, cfg.filename, masterName, ClassFilename(cfg.classBasename)), "\n"))]
             else [])
        && (warnDeref <==> cfg.cloneClass && !AnyDeref(FactsOf(lines, cfg.filename, masterName)))
        && (warnExport <==> cfg.cloneClass && !AnyExport(FactsOf(lines, cfg.filename, masterName)))
  {
    warnDeref, warnExport := false, false;
    var classFilename := ClassFilename(cfg.classBasename);
    var outputPathBundle := Path(cfg.outputDir, cfg.filename);
    var outputPathClass := Path(cfg.outputDir, classFilename + ".bundle.js");
    if outputPathBundle in existing && !cfg.overwrite {
      return FileExists(outputPathBundle), [], false, false;
    }
    if outputPathClass in existing && !cfg.overwrite {
      return FileExists(outputPathClass), [], false, false;
    }
    var output := BuildLoader(h, cfg);
    writes := [FileWrite(outputPathBundle, Join(output, "\n"))];
    if !cfg.cloneClass {
      return Success, writes, false, false;
    }
    var cloneClass, addedDeref, addedExport := CloneRewrite(Split(classText, '\n'), cfg.filename, masterName, classFilename);
    writes := writes + [FileWrite(outputPathClass, Join(cloneClass, "\n"))];
    return Success, writes, !addedDeref, !addedExport;
  }
}
