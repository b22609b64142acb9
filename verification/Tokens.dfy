/** The vocabulary shared by the lexer and the parser: token types, tokens and the keyword table. */
module Tokens {

  datatype TokenType =
    | EoF
    | Select | Insert | Delete | Update | Create | Drop | Use | Alter | Show | Describe | Desc
    | Database | CollectionWord | Index | VIndex | Databases | Collections | Indexes | VIndexes
    | Group | By | Having | Order | Asc | Limit | Offset | In | Between | Like
    | Add | Modify | Rename | Column | To | Primary | Key | Unique | AutoIncrement | Default | Comment
    | Using | With | From | Where | Into | Values | Set | And | Or | Not | As | On | If | Exists
    | Null | True | False
    | Identifier | StringLiteral | IntegerLiteral | FloatLiteral
    | Equal | NotEqual | LessThan | GreaterThan | LessEqual | GreaterEqual
    | Plus | Minus | Star | Slash | Modulo
    | Comma | Semicolon | Dot | LeftParen | RightParen | LeftBracket | RightBracket
    | Error

  /** What the parser looks at: a token without its position. */
  datatype Lexeme = Lexeme(kind: TokenType, value: string)

  /** A token as the lexer hands it out. */
  datatype Token = Token(kind: TokenType, value: string, line: nat, column: nat) {
    function Strip(): Lexeme {
      Lexeme(kind, value)
    }
  }

  predicate IsDigit(c: char) {
    '0' <= c <= '9'
  }

  predicate IsAlpha(c: char) {
    'a' <= c <= 'z' || 'A' <= c <= 'Z'
  }

  predicate IsAlnum(c: char) {
    IsAlpha(c) || IsDigit(c) || c == '_'
  }

  predicate IsSpace(c: char) {
    c == ' ' || c == '\t' || c == '\n' || c == '\r'
  }

  function UpperChar(c: char): char {
    if 'a' <= c <= 'z' then c - 32 as char else c
  }

  function ToUpper(s: string): (u: string)
    ensures |u| == |s|
  {
    seq(|s|, i requires 0 <= i < |s| => UpperChar(s[i]))
  }

  // The keyword table, keyed by the upper-cased text and listed by length.

  function KeywordOfTwo(upper: string): TokenType {
    match upper
    case "BY" => By
    case "IN" => In
    case "TO" => To
    case "OR" => Or
    case "AS" => As
    case "ON" => On
    case "IF" => If
    case _ => Identifier
  }

  function KeywordOfThree(upper: string): TokenType {
    match upper
    case "USE" => Use
    case "ASC" => Asc
    case "ADD" => Add
    case "KEY" => Key
    case "SET" => Set
    case "AND" => And
    case "NOT" => Not
    case _ => Identifier
  }

  function KeywordOfFour(upper: string): TokenType {
    match upper
    case "DROP" => Drop
    case "SHOW" => Show
    case "DESC" => Desc
    case "LIKE" => Like
    case "WITH" => With
    case "FROM" => From
    case "INTO" => Into
    case "NULL" => Null
    case "TRUE" => True
    case _ => Identifier
  }

  function KeywordOfFive(upper: string): TokenType {
    match upper
    case "ALTER" => Alter
    case "INDEX" => Index
    case "GROUP" => Group
    case "ORDER" => Order
    case "LIMIT" => Limit
    case "USING" => Using
    case "WHERE" => Where
    case "FALSE" => False
    case _ => Identifier
  }

  function KeywordOfSix(upper: string): TokenType {
    match upper
    case "SELECT" => Select
    case "INSERT" => Insert
    case "DELETE" => Delete
    case "UPDATE" => Update
    case "CREATE" => Create
    case "VINDEX" => VIndex
    case "HAVING" => Having
    case _ => FurtherKeywordOfSix(upper)
  }

  function FurtherKeywordOfSix(upper: string): TokenType {
    match upper
    case "OFFSET" => Offset
    case "MODIFY" => Modify
    case "RENAME" => Rename
    case "COLUMN" => Column
    case "UNIQUE" => Unique
    case "VALUES" => Values
    case "EXISTS" => Exists
    case _ => Identifier
  }

  function KeywordOfSeven(upper: string): TokenType {
    match upper
    case "INDEXES" => Indexes
    case "BETWEEN" => Between
    case "PRIMARY" => Primary
    case "DEFAULT" => Default
    case "COMMENT" => Comment
    case _ => Identifier
  }

  function KeywordOfEight(upper: string): TokenType {
    match upper
    case "DESCRIBE" => Describe
    case "DATABASE" => Database
    case "VINDEXES" => VIndexes
    case _ => Identifier
  }

  function KeywordOfNineOrMore(upper: string): TokenType {
    match upper
    case "COLLECTION" => CollectionWord
    case "DATABASES" => Databases
    case "COLLECTIONS" => Collections
    case "AUTO_INCREMENT" => AutoIncrement
    case _ => Identifier
  }

  function KeywordTable(upper: string): TokenType {
    if |upper| == 2 then KeywordOfTwo(upper)
    else if |upper| == 3 then KeywordOfThree(upper)
    else if |upper| == 4 then KeywordOfFour(upper)
    else if |upper| == 5 then KeywordOfFive(upper)
    else if |upper| == 6 then KeywordOfSix(upper)
    else if |upper| == 7 then KeywordOfSeven(upper)
    else if |upper| == 8 then KeywordOfEight(upper)
    else KeywordOfNineOrMore(upper)
  }

  function KeywordType(text: string): TokenType {
    KeywordTable(ToUpper(text))
  }
}
