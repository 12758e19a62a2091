/** The supported languages and how a file name tells its language. */
module Languages {
  import opened Options

  datatype Language =
    | Python | TypeScript | JavaScript | Go | Rust | Java | C | Cpp | Ruby | Kotlin | Swift | CSharp | Scala | Php | Lua
    | Luau | Elixir | Ocaml

  /** The variant's name, by which ties are broken. */
  function NameOf(l: Language): string {
    match l
    case Python => "Python"
    case TypeScript => "TypeScript"
    case JavaScript => "JavaScript"
    case Go => "Go"
    case Rust => "Rust"
    case Java => "Java"
    case C => "C"
    case Cpp => "Cpp"
    case Ruby => "Ruby"
    case Kotlin => "Kotlin"
    case Swift => "Swift"
    case CSharp => "CSharp"
    case Scala => "Scala"
    case Php => "Php"
    case Lua => "Lua"
    case Luau => "Luau"
    case Elixir => "Elixir"
    case Ocaml => "Ocaml"
  }

  /**
   Lower case as far as it makes small letters of ASCII: of the capitals, and of the Kelvin sign. Every other character
   is left, none of which becomes part of the spelling of an extension.
   */
  function LowerChar(c: char): char {
    if 'A' <= c <= 'Z' then (c as int + 32) as char
    else if c as int == 0x212A then 'k'
    else c
  }

  function Lower(s: string): (r: string)
    ensures |r| == |s|
  {
    if s == [] then [] else [LowerChar(s[0])] + Lower(s[1..])
  }

  function LastDot(name: string): (i: int)
    ensures -1 <= i < |name|
    ensures i >= 0 ==> name[i] == '.'
    ensures forall j :: i < j < |name| ==> name[j] != '.'
  {
    if name == [] then -1
    else if name[|name| - 1] == '.' then |name| - 1
    else LastDot(name[..|name| - 1])
  }

  /** What follows the last dot, unless that dot comes first. */
  function Extension(name: string): Option<string> {
    var dot := LastDot(name);
    if dot <= 0 then None else Some(name[dot + 1..])
  }

  /** Extensions are compared in lower case. */
  function FromExtension(extension: string): Option<Language> {
    match Lower(extension)
    case "py" => Some(Python)
    case "ts" | "tsx" => Some(TypeScript)
    case "js" | "jsx" | "mjs" | "cjs" => Some(JavaScript)
    case "go" => Some(Go)
    case "rs" => Some(Rust)
    case "java" => Some(Java)
    case "c" | "h" => Some(C)
    case "cpp" | "cc" | "cxx" | "c++" | "hpp" | "hh" | "hxx" | "h++" => Some(Cpp)
    case "rb" => Some(Ruby)
    case "kt" | "kts" => Some(Kotlin)
    case "swift" => Some(Swift)
    case "cs" => Some(CSharp)
    case "scala" => Some(Scala)
    case "php" => Some(Php)
    case "lua" => Some(Lua)
    case "luau" => Some(Luau)
    case "ex" | "exs" => Some(Elixir)
    case "ml" | "mli" => Some(Ocaml)
    case _ => None
  }

  function FromName(name: string): Option<Language> {
    var extension := Extension(name);
    if extension.None? then None else FromExtension(extension.value)
  }
}
