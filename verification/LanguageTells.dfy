/** What tells a language: the extensions that each language lists, the directories that tell nothing, the manifests. */
module LanguageTells {
  import opened Options
  import opened Languages
  import opened Walker
  import opened WalkerRules
  import opened LanguageRank
  import opened ManifestRank

  /** The extensions of a language, as the program lists them. */
  function Extensions(l: Language): seq<string> {
    match l
    case Python => [".py"]
    case TypeScript => [".ts", ".tsx"]
    case JavaScript => [".js", ".jsx", ".mjs", ".cjs"]
    case Go => [".go"]
    case Rust => [".rs"]
    case Java => [".java"]
    case C => [".c", ".h"]
    case Cpp => [".cpp", ".cc", ".cxx", ".c++", ".hpp", ".hh", ".hxx", ".h++"]
    case Ruby => [".rb"]
    case Kotlin => [".kt", ".kts"]
    case Swift => [".swift"]
    case CSharp => [".cs"]
    case Scala => [".scala"]
    case Php => [".php"]
    case Lua => [".lua"]
    case Luau => [".luau"]
    case Elixir => [".ex", ".exs"]
    case Ocaml => [".ml", ".mli"]
  }

  lemma Dotted(x: string, y: string)
    ensures "." + x == "." + y <==> x == y
  {
    assert ("." + x)[1..] == x && ("." + y)[1..] == y;
  }

  /** The same extensions without their dots. */
  function Bare(l: Language): seq<string> {
    match l
    case Python => ["py"]
    case TypeScript => ["ts", "tsx"]
    case JavaScript => ["js", "jsx", "mjs", "cjs"]
    case Go => ["go"]
    case Rust => ["rs"]
    case Java => ["java"]
    case C => ["c", "h"]
    case Cpp => ["cpp", "cc", "cxx", "c++", "hpp", "hh", "hxx", "h++"]
    case Ruby => ["rb"]
    case Kotlin => ["kt", "kts"]
    case Swift => ["swift"]
    case CSharp => ["cs"]
    case Scala => ["scala"]
    case Php => ["php"]
    case Lua => ["lua"]
    case Luau => ["luau"]
    case Elixir => ["ex", "exs"]
    case Ocaml => ["ml", "mli"]
  }

  lemma BareAt(l: Language, i: nat)
    ensures |Bare(l)| == |Extensions(l)|
    ensures i < |Bare(l)| ==> Extensions(l)[i] == "." + Bare(l)[i]
  {
  }

  lemma BareIff(x: string, l: Language)
    ensures "." + x in Extensions(l) <==> x in Bare(l)
  {
    BareAt(l, 0);
    forall i | 0 <= i < |Bare(l)| ensures Extensions(l)[i] == "." + x <==> Bare(l)[i] == x {
      BareAt(l, i);
      Dotted(Bare(l)[i], x);
    }
    hide *;
  }

  lemma BareTells(extension: string, l: Language)
    ensures FromExtension(extension) == Some(l) <==> Lower(extension) in Bare(l)
  {
    if FromExtension(extension) == Some(l) {
      ToldIsListed(extension);
    }
    if Lower(extension) in Bare(l) {
      ListedIsTold(extension, l);
    }
    hide *;
  }

  lemma ToldIsListed(extension: string)
    requires FromExtension(extension).Some?
    ensures Lower(extension) in Bare(FromExtension(extension).value)
  {
    hide Lower;
  }

  lemma ListedIsTold(extension: string, l: Language)
    requires Lower(extension) in Bare(l)
    ensures FromExtension(extension) == Some(l)
  {
    if l in {Python, TypeScript, JavaScript, Go, Rust, Java, C, Cpp} {
      EarlyIsTold(extension, l);
    } else {
      LateIsTold(extension, l);
    }
    hide *;
  }

  lemma EarlyIsTold(extension: string, l: Language)
    requires l in {Python, TypeScript, JavaScript, Go, Rust, Java, C, Cpp} && Lower(extension) in Bare(l)
    ensures FromExtension(extension) == Some(l)
  {
    hide Lower;
  }

  lemma LateIsTold(extension: string, l: Language)
    requires l !in {Python, TypeScript, JavaScript, Go, Rust, Java, C, Cpp} && Lower(extension) in Bare(l)
    ensures FromExtension(extension) == Some(l)
  {
    hide Lower;
  }

  /** The extension of a file is recognised as a language exactly when the language lists it, in lower case. */
  lemma ExtensionTellsIff(extension: string, l: Language)
    ensures FromExtension(extension) == Some(l) <==> "." + Lower(extension) in Extensions(l)
  {
    BareTells(extension, l);
    BareIff(Lower(extension), l);
    hide *;
  }

  /** Lower case changes a capital letter of ASCII to the small one of its place, and the Kelvin sign to k. */
  lemma {:induction false} LowerIs(s: string, i: nat)
    requires i < |s|
    ensures |Lower(s)| == |s|
    ensures 'A' <= s[i] <= 'Z' ==>
      'a' <= Lower(s)[i] <= 'z' && Lower(s)[i] as int - 'a' as int == s[i] as int - 'A' as int
    ensures s[i] == '\U{212A}' ==> Lower(s)[i] == 'k'
    ensures !('A' <= s[i] <= 'Z') && s[i] != '\U{212A}' ==> Lower(s)[i] == s[i]
  {
    if i > 0 {
      LowerIs(s[1..], i - 1);
    }
  }

  /** A component of the path names documentation. */
  predicate IsDocumentation(name: string) {
    name == "docs" || name == "doc" || name == "documentation" || name == "site-docs"
  }

  /**
   A file tells a language exactly when no component of its path names documentation and its name ends in an extension
   that the language lists, in whatever case.
   */
  lemma TellsIff(file: Path, l: Language)
    ensures Tells(file, l) <==>
      && (forall i :: 0 <= i < |file| ==> !IsDocumentation(file[i]))
      && file != [] && exists e :: EndsIn(file[|file| - 1], e) && "." + Lower(e) in Extensions(l)
  {
    var name := NameOfFile(file);
    NoiseIs(file);
    NoExtension();
    assert file == [] ==> name == "";
    assert file != [] ==> name == file[|file| - 1];
    NamedIff(name, l);
    hide *;
    if file == [] {
      assert FromName(name) == None;
    }
    TellsMeans(file, l);
  }

  lemma TellsMeans(file: Path, l: Language)
    ensures Tells(file, l) <==> !IsNoise(file) && FromName(NameOfFile(file)) == Some(l)
  {
    hide IsNoise;
    hide FromName;
  }

  lemma NamedIff(name: string, l: Language)
    ensures FromName(name) == Some(l) <==> exists e :: EndsIn(name, e) && "." + Lower(e) in Extensions(l)
  {
    forall e ensures Extension(name) == Some(e) <==> EndsIn(name, e) {
      ExtensionIs(name, e);
    }
    forall e ensures FromExtension(e) == Some(l) <==> "." + Lower(e) in Extensions(l) {
      ExtensionTellsIff(e, l);
    }
    hide EndsIn;
    hide Extension;
    hide FromExtension;
    hide Extensions;
    hide Lower;
  }

  lemma NoExtension()
    ensures Extension("") == None && FromName("") == None
  {
  }

  lemma NoiseIs(file: Path)
    ensures IsNoise(file) <==> exists i :: 0 <= i < |file| && IsDocumentation(file[i])
  {
    var dirs := NOISE_DIRS;
    assert dirs[0] == "docs" && dirs[1] == "doc" && dirs[2] == "documentation" && dirs[3] == "site-docs";
    assert forall i :: 0 <= i < |file| ==> (file[i] in NOISE_DIRS <==> IsDocumentation(file[i]));
  }

  // ----- Manifests -----

  /** The manifests that speak for one language whatever else the project holds. */
  function Speaking(l: Language): set<ManifestKind> {
    match l
    case TypeScript => {TsConfig}
    case Rust => {CargoToml}
    case Go => {GoMod}
    case Python => {PyProject, SetupPy, RequirementsTxt}
    case Java => {PomXml, BuildGradle}
    case Ruby => {Gemfile}
    case Php => {ComposerJson}
    case Elixir => {MixExs}
    case Swift => {PackageSwift}
    case CSharp => {CsProj, SlnFile, GlobalJson}
    case Scala => {BuildSbt, ScalaBuildProperties}
    case Ocaml => {DuneProject, OpamFile}
    case Lua => {Rockspec, Luarc}
    case Luau => {RojoProject, LuauRc}
    case JavaScript | C | Cpp | Kotlin => {}
  }

  /** Manifests shared by C and C++ leave the choice to their files, and Kotlin's build script that to its sources. */
  predicate IsOpen(m: ManifestKind) {
    m == CmakeLists || m == MesonBuild || m == ConfigureAc || m == MakefileAm || m == BuildGradleKts
  }

  /** Every manifest speaks for the one language that lists it, except those that leave the choice open. */
  lemma ManifestSpeaksIff(m: ManifestKind, dir: Directory, facts: Facts, l: Language)
    ensures m == PackageJson ==>
      (LanguageOf(m, dir, facts) == l <==> l == if dir.typescript then TypeScript else JavaScript)
    ensures IsOpen(m) ==>
      (LanguageOf(m, dir, facts) == l <==> l == if m == BuildGradleKts then facts.gradle else facts.cFamily)
    ensures m != PackageJson && !IsOpen(m) ==> (LanguageOf(m, dir, facts) == l <==> m in Speaking(l))
  {
    OwnLanguage(m, dir, facts);
    OnlyOwnLanguage(m, dir, facts, l);
    OpenLanguage(m, dir, facts);
    hide *;
  }

  lemma OwnLanguage(m: ManifestKind, dir: Directory, facts: Facts)
    ensures m != PackageJson && !IsOpen(m) ==> m in Speaking(LanguageOf(m, dir, facts))
  {
  }

  lemma OnlyOwnLanguage(m: ManifestKind, dir: Directory, facts: Facts, l: Language)
    ensures m in Speaking(l) ==> LanguageOf(m, dir, facts) == l
  {
  }

  lemma OpenLanguage(m: ManifestKind, dir: Directory, facts: Facts)
    ensures m == PackageJson ==> LanguageOf(m, dir, facts) == if dir.typescript then TypeScript else JavaScript
    ensures IsOpen(m) ==> LanguageOf(m, dir, facts) == if m == BuildGradleKts then facts.gradle else facts.cFamily
  {
  }

  /** Where a kind of manifest stands among the precedences. */
  function PlaceOf(m: ManifestKind): nat {
    match m
    case TsConfig => 0
    case PackageJson => 1
    case CargoToml => 2
    case GoMod => 3
    case PyProject => 4
    case SetupPy => 5
    case RequirementsTxt => 6
    case PomXml => 7
    case BuildGradleKts => 8
    case BuildGradle => 9
    case CmakeLists => 10
    case MesonBuild => 11
    case ConfigureAc => 12
    case MakefileAm => 13
    case CsProj => 14
    case SlnFile => 15
    case GlobalJson => 16
    case BuildSbt => 17
    case ScalaBuildProperties => 18
    case DuneProject => 19
    case OpamFile => 20
    case Gemfile => 21
    case ComposerJson => 22
    case MixExs => 23
    case PackageSwift => 24
    case Rockspec => 25
    case Luarc => 26
    case RojoProject => 27
    case LuauRc => 28
  }

  /** The list of precedences names every kind of manifest once, in this order. */
  lemma EveryManifestHasItsPlace(i: nat, m: ManifestKind)
    ensures i < |MANIFEST_PRECEDENCE| && MANIFEST_PRECEDENCE[i] == m <==> i == PlaceOf(m)
  {
    ManifestAtItsPlace(m);
    if i < |MANIFEST_PRECEDENCE| {
      PlaceOfManifest(i);
    }
    hide *;
  }

  lemma ManifestAtItsPlace(m: ManifestKind)
    ensures PlaceOf(m) < |MANIFEST_PRECEDENCE| && MANIFEST_PRECEDENCE[PlaceOf(m)] == m
  {
    PlaceOfManifest(PlaceOf(m));
    OnePlaceEach(m, MANIFEST_PRECEDENCE[PlaceOf(m)]);
    hide *;
  }

  lemma OnePlaceEach(a: ManifestKind, b: ManifestKind)
    requires PlaceOf(a) == PlaceOf(b)
    ensures a == b
  {
  }

  lemma PlaceOfManifest(i: nat)
    requires i < |MANIFEST_PRECEDENCE|
    ensures PlaceOf(MANIFEST_PRECEDENCE[i]) == i
  {
    if i < 15 {
      PlaceOfEarly(i);
    } else {
      PlaceOfLate(i);
    }
    hide *;
  }

  lemma PlaceOfEarly(i: nat)
    requires i < 15
    ensures PlaceOf(MANIFEST_PRECEDENCE[i]) == i
  {
  }

  lemma PlaceOfLate(i: nat)
    requires 15 <= i < |MANIFEST_PRECEDENCE|
    ensures PlaceOf(MANIFEST_PRECEDENCE[i]) == i
  {
  }

  /** Of all manifests present it stands first in precedence, then least deep, then first in the listing. */
  ghost predicate SpeaksFirst(dirs: seq<Directory>, d: nat, m: ManifestKind) {
    && d < |dirs| && m in dirs[d].present
    && (forall e, n :: 0 <= e < |dirs| && n in dirs[e].present ==> PlaceOf(m) <= PlaceOf(n))
    && forall e :: 0 <= e < |dirs| && m in dirs[e].present ==>
         dirs[d].depth < dirs[e].depth || (dirs[d].depth == dirs[e].depth && d <= e)
  }

  /** The opinion is the language of the manifest that speaks first, and there is one unless no manifest is present. */
  lemma OpinionIs(dirs: seq<Directory>, facts: Facts, r: Option<Language>)
    requires IsOpinion(dirs, facts, r)
    ensures r.None? <==> forall d :: 0 <= d < |dirs| ==> dirs[d].present == {}
    ensures r.Some? ==> exists d: nat, m :: SpeaksFirst(dirs, d, m) && r == Some(LanguageOf(m, dirs[d], facts))
  {
    hide LanguageOf;
    if exists f :: Holds(dirs, f) {
      var f := WinnerOf(dirs, facts, r);
      WinnerSpeaksFirst(dirs, f);
      assert SpeaksFirst(dirs, f.dir, MANIFEST_PRECEDENCE[f.kind]);
    } else {
      forall d, m | 0 <= d < |dirs| ensures m !in dirs[d].present {
        HoldsIff(dirs, d, m);
      }
    }
    hide MANIFEST_PRECEDENCE;
    hide IsWinner;
    hide Holds;
  }

  lemma WinnerOf(dirs: seq<Directory>, facts: Facts, r: Option<Language>) returns (f: Found)
    requires IsOpinion(dirs, facts, r) && exists f :: Holds(dirs, f)
    ensures IsWinner(dirs, f) && Holds(dirs, f)
    ensures r == Some(LanguageOf(MANIFEST_PRECEDENCE[f.kind], dirs[f.dir], facts))
  {
    hide LanguageOf;
    hide MANIFEST_PRECEDENCE;
    f :| IsWinner(dirs, f) && r == Some(LanguageOf(MANIFEST_PRECEDENCE[f.kind], dirs[f.dir], facts));
  }

  lemma HoldsIff(dirs: seq<Directory>, d: nat, m: ManifestKind)
    requires d < |dirs|
    ensures Holds(dirs, Found(PlaceOf(m), d)) <==> m in dirs[d].present
  {
    EveryManifestHasItsPlace(PlaceOf(m), m);
    hide MANIFEST_PRECEDENCE;
    hide PlaceOf;
  }

  lemma WinnerSpeaksFirst(dirs: seq<Directory>, f: Found)
    requires IsWinner(dirs, f)
    ensures Holds(dirs, f) && SpeaksFirst(dirs, f.dir, MANIFEST_PRECEDENCE[f.kind])
  {
    var m := MANIFEST_PRECEDENCE[f.kind];
    EveryManifestHasItsPlace(f.kind, m);
    forall e, n | 0 <= e < |dirs| ensures Holds(dirs, Found(PlaceOf(n), e)) <==> n in dirs[e].present {
      HoldsIff(dirs, e, n);
    }
    hide MANIFEST_PRECEDENCE;
    hide PlaceOf;
    hide Holds;
    forall e, n | 0 <= e < |dirs| && n in dirs[e].present ensures !Beats(dirs, Found(PlaceOf(n), e), f) {
    }
    forall e | 0 <= e < |dirs| && m in dirs[e].present && dirs[e].depth == dirs[f.dir].depth ensures f.dir <= e {
      assert Holds(dirs, Found(f.kind, e));
      assert IsBest(dirs, Found(f.kind, e));
    }
  }

  // ----- The counts behind the JavaScript hint -----

  /** The extensions that count for the hint are those of TypeScript and JavaScript, in lower case. */
  lemma CountsAsJsTsIff(extension: string)
    ensures CountsAsJsTs(extension) <==>
      "." + extension in Extensions(TypeScript) || "." + extension in Extensions(JavaScript)
  {
    BareIff(extension, TypeScript);
    BareIff(extension, JavaScript);
    assert CountsAsJsTs(extension) <==> extension in Bare(TypeScript) + Bare(JavaScript);
    hide *;
  }

  lemma CountedTells(x: string)
    requires CountsAsOther(x)
    ensures exists l :: l !in {TypeScript, JavaScript} && x in Bare(l)
  {
    assert x in Bare(Python) + Bare(Rust) + Bare(Go) + Bare(Java) + Bare(C) + Bare(Cpp) + Bare(Kotlin) + Bare(Swift)
      + Bare(Ruby) + Bare(Php) + Bare(Scala) + Bare(Lua) + Bare(Luau) + Bare(Elixir) + Bare(Ocaml) + Bare(CSharp);
    hide *;
  }

  lemma CountedIsUsual(x: string)
    requires CountsAsOther(x)
    ensures x !in {"c++", "h++", "hh", "hxx", "kts"}
  {
  }

  lemma ListedCounts(x: string, l: Language)
    requires l !in {TypeScript, JavaScript} && x in Bare(l) && x !in {"c++", "h++", "hh", "hxx", "kts"}
    ensures CountsAsOther(x)
  {
  }

  /** The counts against the hint leave out some spellings of C++ and Kotlin that tell these languages elsewhere. */
  lemma CountsAsOtherIff(extension: string)
    ensures CountsAsOther(extension) <==>
      && extension !in {"c++", "h++", "hh", "hxx", "kts"}
      && exists l :: l !in {TypeScript, JavaScript} && "." + extension in Extensions(l)
  {
    if CountsAsOther(extension) {
      CountedTells(extension);
      CountedIsUsual(extension);
      var l :| l !in {TypeScript, JavaScript} && extension in Bare(l);
      BareIff(extension, l);
    }
    if l :| l !in {TypeScript, JavaScript} && "." + extension in Extensions(l) {
      if extension !in {"c++", "h++", "hh", "hxx", "kts"} {
        BareIff(extension, l);
        ListedCounts(extension, l);
      }
    }
    hide *;
  }
}
