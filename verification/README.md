# A verified model of DreamDB

This project models four parts of DreamDB in Dafny 4.11 and proves what they promise, for all inputs:

* **SQL parser, lexer and formatters.** A hand-written lexer with one token of look-ahead, a recursive-descent parser
  with one method per grammar level, and visitors that print syntax trees as SQL. The methods and loops of the three
  are modelled as classes and proved against functions on token lists and texts; about those it is proved exactly
  which trees survive printing and reading.
* **CRC-32 and packets.** A generated table, a byte loop, a packet codec and the buffer a session drains.
* **Secondary indexes.** Composite keys, an ordered and a hash index, their manager, the table, and the collection
  that keeps them in step.
* **Logical planner.** Operator trees with scans pruned to the columns a statement mentions, and their meaning.

`dafny verify dfyconfig.toml` checks everything.

## Reading order

| part | specification | implementation | results |
|---|---|---|---|
| all | Wrappers | | |
| expressions | Tokens, Ast, Grammar, Printing | Parser, Formatter | RoundTrip, Consumption, Exactness, Precedence, AcceptedForms |
| statements | StatementGrammar, StatementPrinting | Parser, Formatter | StatementRoundTrip, ListExactness, ClauseExactness, StatementExactness |
| texts | Lexing, Rendering | Lexer, Formatter | TextRoundTrip, StatementText, EndToEnd, WrittenForms, Keywords, Spelling |
| packets | Crc32, ByteOrder, Codec | Crc32, Codec, Session | Bursts, Polynomials, Codec, PacketLayout, Session |
| indexes | IndexKey, Postings, Entries | BTreeIndex, HashIndex, IndexManager, Storage, Collection | KeyOrder, RangeSearch, Postings, PostingOrder, Equivalence, Maintenance, Collection |
| planner | Plans | Planner | PlanMeaning, PlanLayers |

Printing and rendering functions take the text that follows as an argument, so that a statement about an expression
is a statement about it in every surrounding. Lexing and parsing functions return what is left. Most proofs start
with a `hide` statement that names the definitions they do without.

The functions that the methods are proved to compute are themselves compared with references that share nothing with
them: Precedence, AcceptedForms, WrittenForms, Keywords and Spelling for the language, Polynomials and PacketLayout for
packets, KeyOrder and PostingOrder for indexes, PlanLayers for plans.

## Where the code and its documentation differ

The model follows the code.

* `include/dreamdb/parser/README.md:876` and `:932` offer `BETWEEN ... AND ...`. No input makes the parser return one:
  the lower bound is a whole expression and takes the AND (`Consumption.BetweenNeverParses`).
* The formatters double quotes inside strings (`src/parser/ast/debug/expression_formatter.cpp:21-36`); the lexer ends
  the string at the first of the two (`TextRoundTrip.DoubledQuoteCloses`). Which strings survive is
  `TextRoundTrip.StringRoundTrip`.
* The formatter writes no parentheses around IN and LIKE, so that not every tree it prints is read back.
  `Exactness.RoundTripExactly` says which are.
* `create_index` takes everything back when a key is refused, but not when a field index is out of range
  (`Collection.CreateIndexLeavesBehind`; `Collection.CreatedAgrees` says when the indexes agree with the table
  afterwards).
* A refused `update` of an index has already removed the old posting (`Postings.UpdateMatches`).

## Model

| member | source | states |
|---|---|---|
| `Exactness.RoundTripExactly` | src/parser/ast/debug/expression_formatter.cpp:53-236 | For every expression without floats and every remainder that cannot continue an expression: parsing the formatter's tokens followed by that remainder gives the same expression and exactly that remainder if and only if the expression fits (IN and LIKE stand only where no operator can take a piece of them, integers lie in 0 to 2^63-1, no BETWEEN, no database name without a collection name) |
| `RoundTrip.FreeParses` | src/parser/parser.cpp:1064-1182 | Every fitting expression is read back by the whole expression parser, up to any token that cannot continue an expression |
| `RoundTrip.SlotParses` | src/parser/parser.cpp:1184-1272 | The same at the level of the place the expression stands in: operand, left of AND or OR, or free; what follows is what that place allows |
| `RoundTrip.OperandParses` | src/parser/parser.cpp:1368-1548 | Operands that fit are read back by the unary level alone, including parenthesised binary nodes, calls and vectors, when no dot or parenthesis follows |
| `RoundTrip.InParses` | src/parser/parser.cpp:1692-1726 | A printed IN or NOT IN with any list is read back at the comparison level, whatever follows it |
| `RoundTrip.LikeParses` | src/parser/parser.cpp:1757-1777 | A printed LIKE is read back only up to what its pattern, a whole expression, leaves |
| `RoundTrip.ArgumentsParse` | src/parser/parser.cpp:1550-1576 | A printed argument list of any length, the empty one included, is read back up to its closing token |
| `Exactness.ReadBackFits` | src/parser/parser.cpp:1184-1548 | The converse: an expression that a level of the grammar reads back unchanged fits that level |
| `Exactness.NeverOperand` | src/parser/parser.cpp:1274-1405 | No arithmetic level ever returns a printed IN or LIKE unchanged |
| `Exactness.Align` | src/parser/parser.cpp:1064-1110 | Two cuts of one token list, each followed by no opening parenthesis, after equally many tokens other than parentheses and with balanced parentheses before, are the same cut |
| `Exactness.PrintSpans` | src/parser/ast/debug/expression_formatter.cpp:53-236 | The formatter's tokens hold exactly the tokens the tree accounts for, with balanced parentheses |
| `Consumption.ExpressionAccounts` | src/parser/parser.cpp:1064-1182 | Soundness of parsing: a successful parse consumes a stretch of tokens with balanced parentheses that holds exactly the tokens its tree accounts for, and returns no BETWEEN node and no integer outside the literal range |
| `Consumption.LevelAccounts` | src/parser/parser.cpp:1114-1405 | The same for every grammar level |
| `Consumption.ArgumentsAccount` | src/parser/parser.cpp:1550-1576 | The same for argument lists, from their opening to past their closing parenthesis |
| `Consumption.LevelFolds` | src/parser/parser.cpp:1114-1182 | The loops of the left-associative levels return the left fold of the operands they read; the tokens consumed are operand, operator, operand and so on, and no operator of the level follows |
| `Consumption.ExpressionIsMaximal` | src/parser/parser.cpp:1114-1182 | After a parsed expression the next token is neither AND nor OR |
| `Consumption.BetweenNeverParses` | src/parser/parser.cpp:1728-1755 | Hence BETWEEN always fails: the AND it needs has been taken by its lower bound |
| `Precedence.FlatParses` | src/parser/parser.cpp:1114-1366 | Precedence and associativity of all thirteen binary operators, against a table of token kinds: operands joined by any number of them without parentheses are read as the tree in which tighter operators bind first and equally tight ones from the left |
| `Precedence.TwoOperatorsParse` | src/parser/parser.cpp:1114-1366 | The same for two operators between three operands, spelled out: multiplication, division and modulo before plus and minus, these before comparisons, these before AND, AND before OR |
| `Precedence.ComparisonsDoNotChain` | src/parser/parser.cpp:1184-1272 | After a comparison no second one, and no IN, BETWEEN, LIKE or NOT, is taken |
| `Precedence.PredicatesTakeArithmetic` | src/parser/parser.cpp:1184-1272 | IN and LIKE, negated or not, take the whole arithmetic expression before them as their left side |
| `Precedence.LevelLeavesNone` | src/parser/parser.cpp:1114-1366 | After the multiplicative level none of its operators follows, after the additive level none of the five arithmetic ones, after the AND and OR levels none of theirs |
| `AcceptedForms.ParenthesesRead` | src/parser/parser.cpp:1505-1515 | Parentheses may stand around any expression and leave nothing in the tree |
| `AcceptedForms.IntegersRead` | src/parser/parser.cpp:1412-1425 | An integer is read exactly up to 9223372036854775807, and refused above |
| `AcceptedForms.FloatsRead` | src/parser/parser.cpp:1429-1445 | A float keeps its text |
| `AcceptedForms.BeginningsRefused` | src/parser/parser.cpp:1064-1112 | A token that can begin no expression is refused with the entry test's message |
| `Grammar.ParseExpression` | src/parser/parser.cpp:1064-1112 | A successful parse consumes at least one token; the recursion decreases the pair of tokens left and grammar level |
| `Grammar.ParseChain` | src/parser/parser.cpp:1114-1147 | The loop over operators never gives tokens back and ends |
| `Parser.Parser.ParseExpression` | src/parser/parser.cpp:1064-1112 | The method returns or throws what the grammar function gives and leaves exactly its remaining tokens |
| `Parser.Parser.ParseOrExpression` | src/parser/parser.cpp:1114-1147 | The OR loop computes the grammar's OR level |
| `Parser.Parser.ParseAndExpression` | src/parser/parser.cpp:1149-1182 | The AND loop computes the grammar's AND level |
| `Parser.Parser.ParseComparisonExpression` | src/parser/parser.cpp:1184-1272 | At most one comparison, or one IN, BETWEEN or LIKE, possibly after NOT |
| `Parser.Parser.ParseAdditiveExpression` | src/parser/parser.cpp:1274-1317 | The loop over plus and minus computes the additive level |
| `Parser.Parser.ParseMultiplicativeExpression` | src/parser/parser.cpp:1319-1366 | The loop over times, divide and modulo computes the multiplicative level |
| `Parser.Parser.ParseUnaryExpression` | src/parser/parser.cpp:1368-1405 | Prefix operators nest to the right |
| `Parser.Parser.ParsePrimaryExpression` | src/parser/parser.cpp:1407-1548 | Literals (integers with the 64-bit range check, floats by their text), names, groups and vectors |
| `Parser.Parser.ParseFunctionCallExpression` | src/parser/parser.cpp:1550-1576 | A call with its argument list |
| `Parser.Parser.ParseColumnReferenceExpression` | src/parser/parser.cpp:1579-1610 | One, two or three names joined by dots, and the errors in between |
| `Parser.Parser.ParseInExpression` | src/parser/parser.cpp:1692-1726 | IN with its list, which may be empty |
| `Parser.Parser.ParseBetweenExpression` | src/parser/parser.cpp:1728-1755 | BETWEEN with its two bounds and the AND between them |
| `Parser.Parser.ParseLikeExpression` | src/parser/parser.cpp:1757-1777 | LIKE with a whole expression as its pattern |
| `Parser.Parser.Advance` | src/parser/parser.cpp:1779-1783 | The current token is replaced by the next one; past the end it stays at the end |
| `Parser.Parser.Match` | src/parser/parser.cpp:1785-1792 | Consumes a token exactly when it is of the asked type |
| `Parser.Parser.Consume` | src/parser/parser.cpp:1799-1806 | Consumes a token of the asked type or throws the given message, leaving the tokens as they are |
| `StatementExactness.StatementRoundTripExactly` | src/parser/parser.cpp:65-416 | For every SELECT, INSERT, UPDATE and DELETE without floats, with or without a final semicolon: parsing its formatted tokens returns it unchanged if and only if its expressions fit, its obligatory lists are not empty and its counts lie within 64 bits |
| `StatementRoundTrip.StatementParses` | src/parser/parser.cpp:65-119 | The direction from fitting to being read back, for any combination of optional clauses and any list lengths |
| `StatementRoundTrip.SelectParses` | src/parser/parser.cpp:121-260 | SELECT with all its clauses |
| `StatementRoundTrip.InsertParses` | src/parser/parser.cpp:262-326 | INSERT with and without column names |
| `StatementRoundTrip.UpdateParses` | src/parser/parser.cpp:328-384 | UPDATE with any number of assignments |
| `StatementRoundTrip.DeleteParses` | src/parser/parser.cpp:386-416 | DELETE with and without WHERE |
| `StatementRoundTrip.SeparatedParses` | src/parser/parser.cpp:124-160 | A comma-separated list of items is read back if each item is, up to a comma or the end |
| `AcceptedForms.DirectionDefault` | src/parser/parser.cpp:196-222 | An item of ORDER BY without ASC or DESC is ascending |
| `AcceptedForms.DirectionRead` | src/parser/parser.cpp:196-222 | With ASC or DESC it is as it says |
| `AcceptedForms.CountsRead` | src/parser/parser.cpp:217-243 | LIMIT and OFFSET are read exactly up to 18446744073709551615 |
| `AcceptedForms.TrailingRefused` | src/parser/parser.cpp:65-88 | Nothing may follow a statement and its semicolon |
| `AcceptedForms.NothingRead` | src/parser/parser.cpp:65-72 | An empty input gives no statement |
| `ListExactness.SeparatedBack` | src/parser/parser.cpp:124-160 | The converse for lists: if the list is read back, each item was, at its own place |
| `ListExactness.ExpressionBack` | src/parser/parser.cpp:1064-1112 | An expression that comes back from its printed form was read from exactly its own tokens, and fits |
| `Parser.Parser.ParseSelectStatement` | src/parser/parser.cpp:121-260 | The method computes the SELECT grammar, error messages included |
| `Parser.Parser.ParseInsertStatement` | src/parser/parser.cpp:262-326 | The method computes the INSERT grammar |
| `Parser.Parser.ParseUpdateStatement` | src/parser/parser.cpp:328-384 | The method computes the UPDATE grammar |
| `Parser.Parser.ParseDeleteStatement` | src/parser/parser.cpp:386-416 | The method computes the DELETE grammar |
| `Parser.Parser.Parse` | src/parser/parser.cpp:65-88 | A whole input: nothing, or one statement of the four kinds, an optional semicolon, and the end; a successful parse leaves no token |
| `Parser.Parser.ParseText` | src/parser/parser.cpp:51-88 | Constructing a parser over a text and running it gives the grammar's result on the text's tokens, none left; statements of data definition get a failure of the model's own |
| `StatementText.StatementTextParses` | src/parser/ast/debug/statement_formatter.cpp:154-354 | From the characters on: lexing and parsing what the statement formatter writes gives the statement back if and only if it fits, for every statement of identifiers and of strings the lexer can read |
| `EndToEnd.FormatAndParse` | src/parser/ast/debug/statement_formatter.cpp:51-57 | Both sides of the code run one after the other: the parser run on what the statement formatter wrote returns the statement if and only if it fits |
| `StatementText.ExpressionTextParses` | src/parser/ast/debug/expression_formatter.cpp:45-236 | The same for expressions, with any text after them that does not extend their last word and starts with no operator |
| `StatementText.LexStatement` | src/parser/ast/debug/statement_formatter.cpp:154-354 | The written statement splits into exactly the tokens it stands for |
| `TextRoundTrip.LexExpression` | src/parser/ast/debug/expression_formatter.cpp:53-236 | The written expression splits into exactly the tokens it stands for, before any text that does not extend its last word or number |
| `TextRoundTrip.StringRoundTrip` | src/parser/ast/debug/expression_formatter.cpp:21-36 | Writing a string and lexing it gives one string token of the same value if and only if the string has no quote, backslash, CR or LF |
| `TextRoundTrip.ScanShrinks` | src/parser/lexer.cpp:314-380 | A literal that ends exactly at the end of the text yields no longer a value than was written, and as long a one only if nothing was escaped |
| `TextRoundTrip.DoubledQuoteCloses` | src/parser/lexer.cpp:314-380 | A doubled quote ends the literal; the lexer does not know the escape the formatter uses |
| `TextRoundTrip.LexNumberText` | src/parser/lexer.cpp:260-312 | A written number followed by neither a letter, digit, underscore nor dot is one integer token |
| `Keywords.KeywordsInAnyCase` | src/parser/lexer.cpp:16-74 | Exactly the listed 57 words are keywords, each of its kind, whatever the case of their letters |
| `Keywords.CaseDoesNotMatter` | src/parser/lexer.cpp:439-457 | Two words that differ in the case of letters only are of the same kind |
| `Keywords.KeywordInText` | src/parser/lexer.cpp:237-258 | In a text a keyword in any mixture of cases is one token of its kind if no letter, digit or underscore follows |
| `Keywords.IdentifierInText` | src/parser/lexer.cpp:237-258 | Any other word of letters, digits and underscores that starts with no digit is one identifier |
| `Spelling.SignInText` | src/parser/lexer.cpp:140-223 | Every sign is one token of its kind, both spellings of unequal included, unless a longer sign begins there |
| `Spelling.UnknownInText` | src/parser/lexer.cpp:140-223 | Any other character is an error token by itself |
| `Spelling.NumberInText` | src/parser/lexer.cpp:260-312 | Every form of number is one token: an integer if it has neither fraction nor exponent, otherwise a float |
| `Spelling.EscapedStringReadsBack` | src/parser/lexer.cpp:314-380 | Any string at all, written between quotes of either kind with backslash escapes, is read back as it was |
| `Spelling.UnterminatedString` | src/parser/lexer.cpp:314-380 | A string that meets a line break or the end of the text is an error token, and the break stays |
| `Spelling.SpaceInText` | src/parser/lexer.cpp:225-235 | Spaces, tabs, line feeds and carriage returns between tokens do not matter |
| `Spelling.PlacesInText` | src/parser/lexer.cpp:405-428 | Line and column after a character: a new line after LF, after CR, and once after CR LF; otherwise one column further |
| `Spelling.FirstPlace` | src/parser/lexer.cpp:405-428 | A text starts in line 1, column 1 |
| `Ast.DecimalReadsBack` | src/parser/parser.cpp:1412-1425 | A written number reads back as itself |
| `Formatter.EscapeSqlString` | src/parser/ast/debug/expression_formatter.cpp:21-36 | The loop doubles every quote and keeps everything else |
| `Formatter.ExpressionFormatter.Format` | src/parser/ast/debug/expression_formatter.cpp:45-51 | The visitors write exactly the text of the expression |
| `Formatter.ExpressionFormatter.Visit` | src/parser/ast/debug/expression_formatter.cpp:53-236 | Each visitor appends its expression's text and nothing else |
| `Formatter.ExpressionFormatter.VisitBinary` | src/parser/ast/debug/expression_formatter.cpp:106-160 | Binary nodes are always parenthesised |
| `Formatter.ExpressionFormatter.VisitIn` | src/parser/ast/debug/expression_formatter.cpp:176-194 | IN and NOT IN are written without parentheses around them |
| `Formatter.StatementFormatter.Format` | src/parser/ast/debug/statement_formatter.cpp:51-57 | The visitors write exactly the text of the statement |
| `Formatter.StatementFormatter.VisitSelect` | src/parser/ast/debug/statement_formatter.cpp:233-307 | SELECT: items with aliases, clauses that are present, directions always written |
| `Formatter.StatementFormatter.VisitInsert` | src/parser/ast/debug/statement_formatter.cpp:206-231 | INSERT: column names only if there are any |
| `Formatter.StatementFormatter.VisitUpdate` | src/parser/ast/debug/statement_formatter.cpp:336-354 | UPDATE: assignments and the optional condition |
| `Formatter.StatementFormatter.VisitDelete` | src/parser/ast/debug/statement_formatter.cpp:154-162 | DELETE: the optional condition |
| `Rendering.RenderAppends` | src/parser/ast/debug/expression_formatter.cpp:45-51 | What follows an expression's text does not change it |
| `WrittenForms.BinaryWritten` | src/parser/ast/debug/expression_formatter.cpp:106-160 | Each binary operator by its text, between spaces and in parentheses |
| `WrittenForms.UnaryWritten` | src/parser/ast/debug/expression_formatter.cpp:85-104 | The prefix operators by their texts |
| `WrittenForms.NamesWritten` | src/parser/ast/debug/expression_formatter.cpp:73-83 | Database, collection and column in this order, joined by dots |
| `WrittenForms.ConstantsWritten` | src/parser/ast/debug/expression_formatter.cpp:53-71 | TRUE, FALSE, NULL and a string with a quote, letter by letter |
| `WrittenForms.NumeralsWritten` | src/parser/ast/debug/expression_formatter.cpp:53-71 | Integers in decimal digits, the highest power first, with a minus sign if negative |
| `WrittenForms.NumeralsRead` | src/parser/parser.cpp:1412-1425 | A digit after a numeral adds itself to ten times the numeral's value |
| `WrittenForms.CallsWritten` | src/parser/ast/debug/expression_formatter.cpp:162-174 | Calls and vectors with their separators |
| `WrittenForms.InWritten` | src/parser/ast/debug/expression_formatter.cpp:176-194 | IN and NOT IN, letter by letter |
| `WrittenForms.LikeWritten` | src/parser/ast/debug/expression_formatter.cpp:212-222 | LIKE and NOT LIKE, letter by letter |
| `WrittenForms.BetweenWritten` | src/parser/ast/debug/expression_formatter.cpp:196-210 | BETWEEN and NOT BETWEEN, letter by letter |
| `WrittenForms.SelectWritten` | src/parser/ast/debug/statement_formatter.cpp:233-307 | SELECT with its items, letter by letter |
| `WrittenForms.ShortSelectWritten` | src/parser/ast/debug/statement_formatter.cpp:233-307 | SELECT * without clauses, letter by letter |
| `WrittenForms.ClausesWritten` | src/parser/ast/debug/statement_formatter.cpp:233-307 | All clauses of a SELECT, letter by letter and in order |
| `WrittenForms.InsertWritten` | src/parser/ast/debug/statement_formatter.cpp:206-231 | INSERT with and without column names, letter by letter |
| `WrittenForms.UpdateWritten` | src/parser/ast/debug/statement_formatter.cpp:336-354 | UPDATE with two assignments and a condition, letter by letter |
| `WrittenForms.DeleteWritten` | src/parser/ast/debug/statement_formatter.cpp:154-162 | DELETE with and without a condition, letter by letter |
| `Lexer.Lexer.Next` | src/parser/lexer.cpp:97-107 | Hands out the tokens of the text one after another, each with the line and column of its first character and moving the position on, then EoF for ever; a peeked token is handed out first |
| `Lexer.Lexer.Peek` | src/parser/lexer.cpp:109-116 | Shows the next token, with its line and column, without consuming it |
| `Lexer.Lexer.NextInternal` | src/parser/lexer.cpp:123-223 | The token, what is left, and the line and column where it starts |
| `Lexer.Lexer.Advance` | src/parser/lexer.cpp:405-428 | Keeps the line one plus the line breaks passed and the column one plus the characters since, with CR LF one break that is never split |
| `Lexer.Lexer.Match` | src/parser/lexer.cpp:430-437 | Consumes a character exactly when it is the expected one |
| `Lexer.Lexer.SkipWhitespace` | src/parser/lexer.cpp:225-235 | Skips exactly the spaces, tabs and line breaks |
| `Lexer.Lexer.ReadIdentifierOrKeyword` | src/parser/lexer.cpp:237-258 | The longest word, classified by the keyword table regardless of case |
| `Lexer.Lexer.ReadNumber` | src/parser/lexer.cpp:260-312 | Digits, an optional fraction, an optional exponent |
| `Lexer.Lexer.ReadExponent` | src/parser/lexer.cpp:284-307 | An exponent without digits is given back, and line and column are again those of the position |
| `Lexer.Lexer.ReadString` | src/parser/lexer.cpp:314-380 | Characters up to the quote that opened the string, escapes replaced; an error token at a line break or the end |
| `Crc32.Compute` | src/utils/crc32.cpp:45-56 | The table-driven loop computes the bit-serial checksum, for every input; which one that is say the next two rows |
| `Polynomials.ChecksumIsRemainder` | src/utils/crc32.cpp:12-56 | Which checksum it is, without a register: the message's bits, each byte's lowest first, times x^32, the first 32 inverted, divided by the polynomial x^32 + x^26 + x^23 + ... + x + 1 of section 8 of RFC 1952; the remainder inverted, its highest power in the lowest bit |
| `Polynomials.CheckValue` | src/utils/crc32.cpp:45-56 | The checksum of the ASCII digits 123456789 is 0xCBF43926 |
| `Polynomials.PolynomialBits` | include/dreamdb/utils/crc32.h:51-51 | Bit 31 - k of the register constant is set exactly for the exponents k below 32 |
| `Crc32.GenerateEntry` | src/utils/crc32.cpp:12-24 | A table entry is eight steps of the shift register |
| `Crc32.GenerateTable` | src/utils/crc32.cpp:26-34 | The table holds the entry of every byte |
| `Crc32.Linear` | src/utils/crc32.cpp:16-21 | The step of the register is linear over exclusive or |
| `Crc32.SerialIsParallel` | src/utils/crc32.cpp:16-21 | Feeding the bits of a word one by one is feeding them at once |
| `Crc32.ByteStep` | src/utils/crc32.cpp:50-53 | Eight steps are one look-up of the low byte over the other bytes moved down |
| `Crc32.Turn` | src/utils/crc32.cpp:50-53 | One turn of the loop consumes one byte of the message |
| `Bursts.ChecksumDetectsBurst` | src/utils/crc32.cpp:45-56 | Two messages of equal length, however long, that differ only within four consecutive bytes have different checksums |
| `Bursts.BurstDetected` | src/utils/crc32.cpp:16-21 | The same for bit strings and any window of 32 bits |
| `Bursts.ToZero` | src/utils/crc32.cpp:16-21 | At most 32 bits that bring a zero register back to zero are all zero |
| `Bursts.SerialDifference` | src/utils/crc32.cpp:16-21 | The registers of two messages differ as the register of their difference |
| `Bursts.GeneratorGoesUnnoticed` | src/utils/crc32.cpp:16-21 | The bound is sharp: flipping the 33 bits of the generator, wherever in a bit string, changes no register |
| `Bursts.ChecksumMissesGenerator` | src/utils/crc32.cpp:45-56 | Two messages of any length whose bits differ by zeros, the generator, zeros are different and have the same checksum |
| `Codec.Encode` | src/protocol/codec.cpp:12-35 | The packet is the header (magic number, total length modulo 2^32, checksum) and the body |
| `Codec.Decode` | src/protocol/codec.cpp:37-69 | The body, or the first of the four errors that applies |
| `Codec.DecodedIffEncoded` | src/protocol/codec.cpp:12-69 | A packet decodes to a body if and only if it is that body's encoding and shorter than 2^32 |
| `Codec.EncodeDecode` | src/protocol/codec.cpp:12-69 | Decoding undoes encoding if and only if 16 plus the body's length is below 2^32 |
| `Codec.TryDecodeOne` | src/protocol/codec.cpp:71-114 | Takes the packet at the front off the buffer; answering false or throwing, it changes neither buffer nor body |
| `Codec.FrameIffEncoded` | src/protocol/codec.cpp:71-114 | A packet is taken off if and only if the buffer starts with the encoding of a body of at most 64 MiB minus 16 bytes, and exactly that is removed |
| `Codec.FrameIsStable` | src/protocol/codec.cpp:71-98 | Bytes arriving later change neither the packet found nor the error thrown |
| `Codec.CorruptedBodyIsRejected` | src/protocol/codec.cpp:59-65 | Both decoders report a checksum mismatch when a burst within four bytes hits the body alone |
| `Codec.HeaderReadsBack` | src/protocol/codec.cpp:21-29 | The header is stored in 16 little-endian bytes and read back as it was |
| `PacketLayout.PacketBytes` | src/protocol/codec.cpp:12-35 | A packet byte by byte: a zero and the letters of dreamdb backwards, the length and the checksum of the body with the lowest byte first, the body |
| `PacketLayout.DecodeAnswers` | src/protocol/codec.cpp:37-69 | What decoding answers, from the packet's bytes, the first error first |
| `PacketLayout.StreamAnswers` | src/protocol/codec.cpp:71-114 | What is found at the front of a stream, from its bytes, the first error first |
| `PacketLayout.LargestBody` | src/protocol/codec.cpp:71-98 | Bodies of up to 67108848 bytes are taken off a stream, longer ones refused |
| `ByteOrder.NumberReadsBack` | src/protocol/codec.cpp:21-29 | Little-endian numbers read back |
| `Session.Session.ProcessBuffer` | src/server/session.cpp:54-63 | The loop hands over every complete packet at the front of the buffer, in order, and lets the decoder's exception pass |
| `Session.Session.Receive` | src/server/session.cpp:26-39 | One completed read: the bytes are appended, then the buffer is drained |
| `Session.Session.ReceiveAll` | src/server/session.cpp:26-63 | Any number of completed reads, one after another, ending with the first exception: what is handed over, left and thrown is that of the function the theorems below speak of |
| `Session.ChunkingDoesNotMatter` | src/server/session.cpp:26-63 | For any byte stream, however it is cut: the same bodies, the same exception, and without one the same bytes left over as draining the whole stream at once |
| `Session.ArrivedWasSent` | src/server/session.cpp:26-63 | Chunks are received as exactly these bodies, without an exception and with nothing left, if and only if they concatenate to the encodings of these bodies, each at most 64 MiB minus 16 bytes |
| `Session.StreamArrives` | src/server/session.cpp:26-63 | Bodies of bounded size arrive complete and in order for every way of cutting their encodings |
| `Session.DrainConserves` | src/server/session.cpp:54-63 | No byte is lost: the buffer was the encodings of the bodies taken off, then what is left; and draining stops only at an incomplete or malformed packet |
| `Session.DrainInTwo` | src/server/session.cpp:26-63 | Draining after each of two arrivals is draining once after both |
| `IndexKey.KeysAreOrdered` | src/index/index_key.cpp:124-148 | On keys whose positions hold the same types the comparison is a total order, zero exactly for equal keys |
| `IndexKey.KeysReverse` | src/index/index_key.cpp:124-148 | Swapping any two keys turns the sign, whatever their types |
| `IndexKey.KeysZero` | src/index/index_key.cpp:17-66 | Two keys compare as equal exactly when they are of one length and agree wherever their types agree |
| `IndexKey.KeysChain` | src/index/index_key.cpp:124-148 | Comparisons of three keys of one shape fit together |
| `IndexKey.MixedKeysAreNotOrdered` | src/index/index_key.cpp:17-66 | A concrete input on which the order is lost: NULL equals both 1 and 2 |
| `IndexKey.OrderedIffOneKind` | src/index/index_key.cpp:17-66 | Exactly when the order holds: for all keys drawn from given types per position, only equal keys compare as equal if and only if each position allows one type, and transitivity holds under the same condition |
| `IndexKey.LexicographicChains` | src/index/index_key.cpp:50-58 | Lexicographic comparison of keys, strings and vectors is transitive if that of the elements is |
| `IndexKey.Compare` | src/index/index_key.cpp:124-148 | The loop computes the lexicographic comparison with length as the tie-break; which key is smaller says the next row |
| `KeyOrder.KeysCompare` | src/index/index_key.cpp:17-66 | Which of two keys is smaller, without the comparison functions: at the first position where values of one type differ, the one with the smaller value; if there is none, the shorter one |
| `KeyOrder.ValuesCompare` | src/index/index_key.cpp:17-66 | Which of two values is smaller, type by type: numbers by size, false before true, texts by the first differing character or as a beginning, vectors by length and then by the first differing element |
| `IndexKey.Equals` | src/index/index_key.cpp:164-183 | Equal length and equal values at every position |
| `IndexKey.EqualsIsCompareZero` | src/index/index_key.cpp:124-183 | equals holds exactly when compare gives zero, for all keys |
| `IndexKey.EqualKeysHashAlike` | src/index/index_key.cpp:150-183 | Among keys of one shape equality is identity |
| `IndexKey.HashedAlikeIffOneKind` | src/index/index_key.cpp:71-183 | Exactly when equal keys have equal hashes: for all keys drawn from given types per position and whatever the library's hashes, if and only if each position allows one type |
| `IndexKey.NullEqualsInteger` | src/index/index_key.cpp:71-183 | A concrete input on which that fails: a NULL and the integer 5 are equal keys, with different hashes if the library's hash of 5 is odd |
| `IndexKey.OneShapeSeparates` | src/index/index_key.cpp:124-183 | Keys of one shape meet what an ordered map and a hash map ask of their keys |
| `IndexKey.Hash` | src/index/index_key.cpp:150-162 | The loop folds the hashes of the values from left to right in 64-bit arithmetic |
| `IndexKey.HashFieldValue` | src/index/index_key.cpp:71-110 | Vectors fold the hashes of their elements; NULL hashes to zero |
| `IndexKey.CombinedInNumbers` | src/index/index_key.cpp:150-162 | The combination of hashes on one input, in numbers |
| `BTreeIndex.BTreeIndex.Insert` | src/index/b_tree_index.cpp:35-52 | The sorted entries change exactly as the map from keys to postings does; a unique index refuses a key it holds, a null key is refused. Asked is what an ordered map asks: that the keys it holds and the given one are in a total order |
| `BTreeIndex.BTreeIndex.Remove` | src/index/b_tree_index.cpp:54-76 | All occurrences of the id leave the key's list, an empty list leaves the index; succeeds whenever the key is there |
| `BTreeIndex.BTreeIndex.Update` | src/index/b_tree_index.cpp:78-87 | Removal, then insertion; a refused insertion does not bring the old posting back |
| `BTreeIndex.BTreeIndex.SearchEqual` | src/index/b_tree_index.cpp:89-100 | The posting list of the key |
| `BTreeIndex.BTreeIndex.SearchGreaterThan` | src/index/b_tree_index.cpp:102-121 | Exactly the ids under greater keys, in key then posting order |
| `BTreeIndex.BTreeIndex.SearchLessThan` | src/index/b_tree_index.cpp:123-142 | Exactly the ids under smaller keys, in key then posting order |
| `BTreeIndex.BTreeIndex.SearchGreaterEqual` | src/index/b_tree_index.cpp:144-162 | Exactly the ids under keys not smaller |
| `BTreeIndex.BTreeIndex.SearchLessEqual` | src/index/b_tree_index.cpp:164-183 | Exactly the ids under keys not greater |
| `BTreeIndex.BTreeIndex.SearchBetween` | src/index/b_tree_index.cpp:185-206 | Exactly the ids under keys between the two; demanded is only that no key lies below the left and above the right one, where the iterators would miss each other |
| `RangeSearch.SearchIsFilterAndSort` | src/index/b_tree_index.cpp:89-206 | In an index that matches the table, a search is the table filtered by the range: each id once, in key order |
| `RangeSearch.ThreeWaySplit` | src/index/b_tree_index.cpp:102-183 | Less, equal and greater, one after another, are the whole index; at most and at least are two of them |
| `RangeSearch.BetweenSplit` | src/index/b_tree_index.cpp:144-206 | Between two keys in order, followed by what is greater than the right one, is at least the left one; likewise from below |
| `RangeSearch.ExactlyIsFound` | src/index/b_tree_index.cpp:89-100 | The ids under keys that compare as equal are the key's posting list |
| `RangeSearch.SearchFilters` | src/index/b_tree_index.cpp:89-206 | An id is found if and only if its entity's key lies in the range |
| `KeyOrder.SearchMeans` | src/index/b_tree_index.cpp:89-206 | Every search answers exactly the entities whose keys are smaller, greater or neither, as asked, in terms of the order above |
| `KeyOrder.SearchAscends` | src/index/b_tree_index.cpp:89-206 | And in ascending order of their keys |
| `HashIndex.HashIndex.Find` | src/index/hash_index.cpp:35-42 | Looking for equal hash and equal key finds exactly the keys in the index. Asked is what a hash map asks: that no other key has the given one's hash and equals it |
| `HashIndex.HashIndex.Insert` | src/index/hash_index.cpp:35-52 | The same function of postings as for the ordered index |
| `HashIndex.HashIndex.Remove` | src/index/hash_index.cpp:54-72 | The same function of postings as for the ordered index |
| `HashIndex.HashIndex.Update` | src/index/hash_index.cpp:74-83 | The same function of postings as for the ordered index |
| `HashIndex.HashIndex.SearchEqual` | src/index/hash_index.cpp:85-92 | The same lookup as for the ordered index |
| `Equivalence.AnswerAlike` | src/index/hash_index.cpp:35-92 | For any list of insertions, removals and updates on an ordered and a hash index from empty, unique or not: the same booleans, and afterwards the same list under every key |
| `Equivalence.RunOnTree` | src/index/b_tree_index.cpp:35-87 | A run on the ordered index answers and leaves what the common specification says |
| `Equivalence.RunOnTable` | src/index/hash_index.cpp:35-83 | A run on the hash index answers and leaves what the common specification says |
| `Postings.RunStaysTidy` | src/index/b_tree_index.cpp:35-87 | After any run of operations no posting list is empty and none of a unique index has two ids |
| `Postings.InsertMatches` | src/index/b_tree_index.cpp:35-52 | Inserting a new entity's key keeps the index equal to the table, and succeeds exactly if the index is not unique or no entity holds the key |
| `Postings.RemoveMatches` | src/index/b_tree_index.cpp:54-76 | Removing an entity's key always succeeds and keeps the index equal to the table |
| `Postings.UpdateMatches` | src/index/b_tree_index.cpp:78-87 | Updating an entity's key succeeds exactly if the index is not unique or no other entity holds the new key; a refused update leaves the entity without a posting |
| `PostingOrder.ListIsSurviving` | src/index/b_tree_index.cpp:35-76 | Which ids stand under a key after any insertions and removals, and in which order, told from the operations alone: those inserted and not removed since, in order of insertion |
| `PostingOrder.AnswerIsTold` | src/index/b_tree_index.cpp:35-76 | And whether the next insertion or removal succeeds |
| `PostingOrder.UniqueInsertion` | src/index/b_tree_index.cpp:42-52 | A unique index takes an insertion exactly if nothing is found under its key |
| `PostingOrder.UpdateMoves` | src/index/b_tree_index.cpp:78-87 | An update takes the id from the old key and puts it last under the new one, or has only taken it away |
| `IndexManager.IndexManager.RegisterIndex` | src/index/index_manager.cpp:6-9 | Registers under a free name, changes nothing otherwise |
| `IndexManager.IndexManager.UnregisterIndex` | src/index/index_manager.cpp:11-14 | Removes exactly the named index |
| `IndexManager.IndexManager.InsertComparableIndex` | src/index/index_manager.cpp:21-34 | Inserts into the named ordered index and leaves all others alone; false and no change for a missing index or a hash index |
| `IndexManager.IndexManager.RemoveComparableIndex` | src/index/index_manager.cpp:36-49 | The same for removal |
| `IndexManager.IndexManager.UpdateComparableIndex` | src/index/index_manager.cpp:51-64 | The same for update |
| `IndexManager.IndexManager.SearchComparableIndexEqual` | src/index/index_manager.cpp:66-79 | The lookup of the named ordered index, or nothing |
| `IndexManager.IndexManager.SearchComparableIndexBetween` | src/index/index_manager.cpp:141-154 | The range search of the named ordered index, or nothing |
| `IndexManager.IndexManager.InsertHashableIndex` | src/index/index_manager.cpp:156-169 | Inserts into the named hash index; false and no change for a missing index or an ordered one |
| `IndexManager.IndexManager.RemoveHashableIndex` | src/index/index_manager.cpp:171-184 | The same for removal |
| `IndexManager.IndexManager.UpdateHashableIndex` | src/index/index_manager.cpp:186-199 | The same for update |
| `IndexManager.IndexManager.SearchHashableIndexEqual` | src/index/index_manager.cpp:201-214 | The lookup of the named hash index, or nothing |
| `Storage.MemoryStorage.Insert` | src/storage/memory_storage.cpp:11-24 | Adds the entity unless its id is taken |
| `Storage.MemoryStorage.RemoveById` | src/storage/memory_storage.cpp:26-36 | Removes the entity if it is there |
| `Storage.MemoryStorage.UpdateById` | src/storage/memory_storage.cpp:38-50 | Assigns the fields one by one; an index out of range throws and keeps the assignments before it |
| `Storage.AssignedLast` | src/storage/memory_storage.cpp:45-47 | All assignments succeed exactly if all fields exist; then each field holds the last value assigned to it, or its old one |
| `Storage.AssignedPartly` | src/storage/memory_storage.cpp:45-47 | The first assignment without a field ends the update; those before it stay |
| `Storage.MemoryStorage.GetAllEntities` | src/storage/memory_storage.cpp:63-73 | Every entity once, in an order left open |
| `Collection.Collection.CreateEntity` | src/schema/collection.cpp:66-72 | A fresh id and as many NULLs as fields |
| `Collection.Collection.CreateIndex` | src/schema/collection.cpp:95-178 | A taken name changes nothing. Otherwise the index is declared and holds exactly one posting per entity; or a doubled key of a unique index is found and declarations and indexes are as before; or a field out of range throws and leaves the declaration behind with a part of the postings. Columns that the index does not use may hold anything |
| `Collection.Collection.ScanInto` | src/schema/collection.cpp:131-175 | The scan: one posting per entity under its key, or the point where it stops, at a doubled key or at an entity without the fields |
| `Collection.CreatedExactly` | src/schema/collection.cpp:95-178 | Creation succeeds exactly if the name is free, every entity has the fields, and the index is not unique or all keys differ; refused, it changes nothing; throwing, it leaves an empty index if no entity has the fields |
| `Collection.Collection.RemoveIndex` | src/schema/collection.cpp:180-197 | Drops the index, its declaration and its mentions; the other indexes go on agreeing with the table |
| `Collection.Collection.RebuildFieldToIndexMap` | src/schema/collection.cpp:272-281 | Under each field stand exactly the indexes that use it, as often as they do |
| `Collection.Collection.FindIndexMetadataByFields` | src/schema/collection.cpp:216-238 | The declarations that use any of the fields, each once |
| `Collection.Collection.GetAllIndexMetadata` | src/schema/collection.cpp:251-261 | All declarations, each once |
| `Collection.Collection.CreateIndexKey` | src/schema/collection.cpp:286-316 | The values of the key fields in order, or the exception |
| `Collection.Collection.UpdateIndexesOnInsert` | src/schema/collection.cpp:318-344 | Index by index; stops at the first that refuses, whose predecessors keep the posting |
| `Collection.Collection.UpdateIndexesOnRemove` | src/schema/collection.cpp:346-371 | Index by index; stops at the first that refuses |
| `Collection.Collection.UpdateIndexesOnUpdate` | src/schema/collection.cpp:373-407 | Index by index; stops at the first that refuses |
| `Collection.CreatedAgrees` | src/schema/collection.cpp:95-178 | After creating an index all indexes agree with the table if and only if the name was taken or every entity has the fields; when a doubled key may be met before an entity without them, only the direction from the condition holds whatever the order of the table |
| `Collection.SameWidthIsEven` | src/schema/collection.cpp:66-72 | Entities of one width, as create_entity makes them, have all the fields of an index or none does, so that the condition is exact for them |
| `Collection.CreateIndexLeavesBehind` | src/schema/collection.cpp:131-138 | A concrete input on which creation is not taken back: one entity with one field, an index on the second |
| `Collection.Collection.InsertIndexed` | src/schema/collection.cpp:74-344 | Insertion into the table followed by update_indexes_on_insert over all declarations: done exactly if every index takes the entity, and then all indexes agree with the table again |
| `Collection.Collection.RemoveIndexed` | src/schema/collection.cpp:80-371 | Removal followed by update_indexes_on_remove: never refused, and all indexes agree with the table again |
| `Collection.Collection.UpdateIndexed` | src/schema/collection.cpp:85-407 | Update by assignments followed by update_indexes_on_update: done exactly if every index takes the new values, and then all indexes agree with the table again; an assignment out of range throws and leaves the indexes as they were |
| `Maintenance.IndexFollows` | src/schema/collection.cpp:318-407 | One index, able to tell the keys of the old and of the new table apart, takes a change of the table unless that breaks its uniqueness, and then is what a scan of the new table would build; what its container asks of the keys is met |
| `Maintenance.IndexesFollow` | src/schema/collection.cpp:318-407 | All listed indexes take a change exactly if each does by itself: the entity has its fields and no key is doubled in a unique index |
| `Maintenance.StopsAtOne` | src/schema/collection.cpp:318-407 | Maintenance that is not done has stopped at one index: those before it took the change, those after it are as before |
| `Maintenance.KeyInDeclaredOrder` | src/schema/collection.cpp:286-316 | A key has the fields' values in the order of the index's declaration |
| `Maintenance.RunAgrees` | src/schema/collection.cpp:74-407 | Whole runs: from agreement on, any sequence of insertions, removals and updates, each applied to the table and to all indexes in any order, on tables whose keys the indexes can tell apart, meets at every step what the containers ask, succeeds throughout if and only if each index takes each change, and then every index agrees with the final table |
| `Maintenance.OneTypeColumnsAreTold` | src/index/index_key.cpp:17-66 | Tables whose indexed columns each hold one type, NULL counting as a type, are such tables, for both kinds of index and whatever the other columns hold |
| `Maintenance.MatchesIsUnique` | src/schema/collection.cpp:131-175 | Two indexes that agree with one table differ in the order of postings at most |
| `Planner.BoundColumnCollector.Visit` | src/planner/logical/logical_planner.cpp:33-114 | The visitors append the columns of the expression in the order of a walk |
| `Planner.CollectColumnIds` | src/planner/logical/logical_planner.cpp:116-138 | The columns of the expression, ascending, each once |
| `Plans.WalkFinds` | src/planner/logical/logical_planner.cpp:33-114 | The walk meets exactly the columns the expression refers to |
| `Planner.PlanStatement` | src/planner/logical/logical_planner.cpp:140-164 | The plan of each kind of statement, or the exception with the number of the statement's type |
| `Planner.PlanSelect` | src/planner/logical/logical_planner.cpp:166-337 | Scan, filter, aggregate, filter, project, sort, limit: each layer exactly when the statement asks for it |
| `Planner.PlanDelete` | src/planner/logical/logical_planner.cpp:339-386 | Scan, filter, delete |
| `Planner.PlanUpdate` | src/planner/logical/logical_planner.cpp:388-474 | Scan, filter, update; throws if a target is not a column |
| `Plans.PlanIsUnique` | src/planner/logical/logical_planner.cpp:140-474 | A statement has only one plan, whatever order the sets of columns were visited in |
| `PlanLayers.PlanIsLayered` | src/planner/logical/logical_planner.cpp:166-474 | Every plan, grouped and sorted ones included, met from its root: limit and offset, order, select list item by item with its aliases, HAVING, grouping, WHERE and scan, each there exactly if asked for and carrying what the statement says; the SET list item by item |
| `PlanMeaning.ValueDependsOnColumns` | src/planner/logical/logical_planner.cpp:116-138 | The value of an expression depends only on the columns collected from it, whatever its operators mean |
| `PlanMeaning.SelectKeepsMeaning` | src/planner/logical/logical_planner.cpp:166-337 | For every SELECT without grouping and ORDER BY and every table: the plan over pruned rows answers WHERE and HAVING, the values of the select list item by item, OFFSET and LIMIT over whole rows |
| `PlanMeaning.DeleteKeepsMeaning` | src/planner/logical/logical_planner.cpp:339-386 | A DELETE reaches exactly the rows its condition wants |
| `PlanMeaning.UpdateKeepsMeaning` | src/planner/logical/logical_planner.cpp:388-474 | An UPDATE reaches exactly the rows its condition wants, and gives each column of the SET list the value its expression has on the whole row |
| `PlanMeaning.ScanIsExact` | src/planner/logical/logical_planner.cpp:166-474 | The scan reads, in ascending order, exactly the columns the statement mentions, grouping and sorting included |
| `PlanMeaning.FilterCut` | src/executor/executor.cpp:618-632 | Filtering and cutting rows commute when the condition's columns are kept |
| `PlanMeaning.ProjectCut` | src/executor/executor.cpp:660-684 | Projecting cut rows gives what whole rows give when the projected columns are kept |

## Left out

What the parts do that the model does not:

- Grammar.ParsePrimary: accepts every float literal token and keeps its text; the conversion to a double, its overflow error and the loss of digits in printing are not modelled, and the round trips exclude floats.
- StatementGrammar.ParseStatement: answers statements of data definition (CREATE, DROP, USE, ALTER, SHOW, DESCRIBE) with a failure of its own instead of parsing them; their formatters are left out too.
- Parser.Parser.ParsePrimaryExpression: floats as in Grammar.ParsePrimary.
- Parser.Parser.ParseText: data definition as in StatementGrammar.ParseStatement.
- Formatter.ExpressionFormatter.Format: a float is written as the text it carries; the stream's six digits are not modelled.
- Formatter.ExpressionFormatter.Visit: floats as in Format.
- Formatter.StatementFormatter.Format: the statements of data definition are not modelled.
- Parser.Parser.Parse: trees and exceptions carry no line and column; the lexer's tokens do.
- Grammar.ParsePredicate: an empty IN list and an empty vector are accepted; the assertions in the constructors of those nodes are taken to be compiled out.
- Lexer.Lexer.Next: characters are compared by code point, and letters are those of ASCII, as in the C locale.
- IndexKey.KeysAreOrdered: requires keys of one shape, since types that differ compare as equal; `IndexKey.OrderedIffOneKind` says that no more is possible. Floats are real numbers, without NaN.
- BTreeIndex.BTreeIndex.Insert: requires that the keys held and the given one are in a total order (`IndexKey.Orderly`), as `std::map` requires of its comparison; what it does with keys that are not, or with different keys that compare as equal, is not modelled. Mixed types are allowed where they do not disturb the order, and an emptied index may go on with other types.
- BTreeIndex.BTreeIndex.Remove: requires the same as Insert, for the same reason.
- BTreeIndex.BTreeIndex.Update: requires the same as Insert, of the old key and, once that is removed, of the new one.
- BTreeIndex.BTreeIndex.SearchEqual: requires the same as Insert, as do the other searches.
- BTreeIndex.BTreeIndex.SearchGreaterThan: requires the same as Insert.
- BTreeIndex.BTreeIndex.SearchLessThan: requires the same as Insert.
- BTreeIndex.BTreeIndex.SearchGreaterEqual: requires the same as Insert.
- BTreeIndex.BTreeIndex.SearchLessEqual: requires the same as Insert.
- BTreeIndex.BTreeIndex.SearchBetween: requires the same as Insert, of each of the two keys.
- HashIndex.HashIndex.Insert: requires that no key held has the given one's hash and equals it without being it, as `std::unordered_map` requires that equality and hash fit together; types may otherwise be mixed.
- HashIndex.HashIndex.Remove: requires the same as Insert.
- HashIndex.HashIndex.Update: requires the same as Insert, of the old key and, once that is removed, of the new one.
- HashIndex.HashIndex.SearchEqual: requires the same as Insert.
- IndexManager.IndexManager.InsertComparableIndex: requires of the named index's keys what that index requires.
- IndexManager.IndexManager.RemoveComparableIndex: requires of the named index's keys what that index requires.
- IndexManager.IndexManager.UpdateComparableIndex: requires of the named index's keys what that index requires.
- IndexManager.IndexManager.SearchComparableIndexEqual: requires of the named index's keys what that index requires.
- IndexManager.IndexManager.InsertHashableIndex: requires of the named index's keys what that index requires.
- IndexManager.IndexManager.RemoveHashableIndex: requires of the named index's keys what that index requires.
- IndexManager.IndexManager.UpdateHashableIndex: requires of the named index's keys what that index requires.
- IndexManager.IndexManager.SearchHashableIndexEqual: requires of the named index's keys what that index requires.
- IndexKey.Compare: the size of a nonzero result of string comparison is not modelled, only its sign.
- IndexKey.Hash: the standard library's hashes of plain values are a parameter.
- HashIndex.HashIndex.Find: an unordered map is a list searched by hash and equality; buckets are not modelled.
- BTreeIndex.BTreeIndex.LowerBound: an ordered map is a sorted list searched from its start; the tree is not modelled.
- IndexManager.IndexManager.SearchComparableIndexBetween: requires of the named index's keys what that index requires; it stands for the four other range searches, which dispatch in the same way.
- Collection.Collection.UpdateIndexesOnInsert: requires what the indexes it gets to require of their keys; null pointers in the list of declarations, which are skipped, are not modelled; nor is an index type other than the two there are.
- Collection.Collection.CreateIndex: requires that an index of the declared kind can tell the table's keys apart (`Maintenance.Told`); a B-tree index over a column that mixes NULL with several values is outside, since `std::map` is then used without an order.
- Collection.Collection.ScanInto: requires the same as CreateIndex.
- Collection.Collection.UpdateIndexesOnRemove: requires what the indexes it gets to require of their keys (`Maintenance.Supported`), as do the two other updates of the indexes.
- Collection.Collection.UpdateIndexesOnUpdate: requires what the indexes it gets to require of their keys.
- Collection.Collection.InsertIndexed: requires the same of the table after the insertion; the code leaves pairing the two calls to its callers.
- Maintenance.RunAgrees: updates are given by the whole old and new entity (`Collection.Collection.UpdateIndexed` gets them from assignments); changing the uniqueness flag during a run is not modelled.
- Codec.Encode: the header is stored in little-endian order, as on the machines the code is built for.
- Session.Session.ProcessBuffer: deserialising a request, handling it and sending the response are not modelled; the bodies handed over are recorded instead. Sockets are left out.
- Planner.PlanSelect: null entries among GROUP BY expressions, which are skipped, are not modelled; nor are logical types.
- PlanMeaning.SelectKeepsMeaning: gives no meaning to grouping and ORDER BY, which the executor does not carry out; the operators of expressions and the truth of a value are parameters; rows are maps from column ids, so how the executor numbers the values of a pruned row is not modelled.
- The other expression and statement classes' constructors and getters, the binder, the evaluator, the physical planner, the executor apart from the row loops named above, the catalog, timestamps and decimals.
- Memory: pointers, lifetimes, allocation failure and concurrency.
