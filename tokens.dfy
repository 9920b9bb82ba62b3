/**
 * The tokens of CL0 (crates/cl0_parser/src/token.rs) and their display
 * spellings. `EndRule`, `At` and `Number` are produced by the lexer but have
 * no display arm in the token file; the spellings given to them here are
 * the characters the lexer reads for them.
 */
module Tokens {
  /** An unsigned 8-bit value, as carried by a number token. */
  type Byte = n: nat | n < 256

  datatype Token =
    | Hash | Colon | Semicolon | Seq | Par | Alt
    | LeftParenthesis | RightParenthesis | LeftCBracket | RightCBracket
    | Comma | And | Or | Not | Plus | Minus | Dot | EndRule | At
    | DashO | FatArrow | ThinArrow
    | Descriptor(name: string)
    | Number(value: Byte)
    | As

  /** The keywords the lexer recognises among identifiers. */
  function KeywordToken(word: string): (r: Token)
  {
    match word
    case "seq" => Seq
    case "par" => Par
    case "alt" => Alt
    case "and" => And
    case "or" => Or
    case "not" => Not
    case "as" => As
    case _ => Descriptor(word)
  }

  predicate IsKeyword(t: Token)
  {
    t in {Seq, Par, Alt, And, Or, Not, As}
  }

  function Digit(d: nat): (c: char)
    requires d < 10
  {
    ['0', '1', '2', '3', '4', '5', '6', '7', '8', '9'][d]
  }

  /** Decimal digits of `n`, without leading zeros. */
  function Decimal(n: nat): (s: string)
    ensures |s| > 0
    decreases n
  {
    if n < 10 then [Digit(n)] else Decimal(n / 10) + [Digit(n % 10)]
  }

  /** The text a token is displayed as (token.rs, `Display`). */
  function Display(t: Token): (s: string)
    ensures |s| > 0
  {
    match t
    case Hash => "#"
    case Colon => ":"
    case Semicolon => ";"
    case Seq => "seq"
    case Par => "par"
    case Alt => "alt"
    case LeftParenthesis => "("
    case RightParenthesis => ")"
    case LeftCBracket => "{"
    case RightCBracket => "}"
    case Comma => ","
    case And => "and"
    case Or => "or"
    case Not => "not"
    case Plus => "+"
    case Minus => "-"
    case Dot => "."
    case EndRule => "."
    case At => "@"
    case DashO => "-o"
    case FatArrow => "=>"
    case ThinArrow => "->"
    case Descriptor(name) => "\"" + name + "\""
    case Number(v) => Decimal(v)
    case As => "as"
  }

  /** Every keyword token is displayed as the word that the lexer maps back to it. */
  lemma KeywordDisplayRoundTrip(t: Token)
    requires IsKeyword(t)
    ensures KeywordToken(Display(t)) == t
  {
  }

  /** Descriptors are displayed quoted, so no descriptor displays as a keyword. */
  lemma DescriptorDisplayQuoted(name: string)
    ensures Display(Descriptor(name))[0] == '"'
    ensures Display(Descriptor(name))[|Display(Descriptor(name))| - 1] == '"'
    ensures |Display(Descriptor(name))| == |name| + 2
  {
  }
}
