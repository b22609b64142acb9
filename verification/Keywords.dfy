/**
 * The keywords, listed once more in the order of the token types: exactly these words, in any mixture of cases, and
 * how they and other words stand in a text.
 */
module Keywords {
  import opened Tokens
  import opened Lexing
  import opened TextRoundTrip

  // Keywords.

  datatype Keyword = Keyword(word: string, kind: TokenType)

  const STATEMENTS := [
    Keyword("SELECT", Select), Keyword("INSERT", Insert), Keyword("DELETE", Delete), Keyword("UPDATE", Update),
    Keyword("CREATE", Create), Keyword("DROP", Drop)]

  const OTHER_STATEMENTS := [
    Keyword("USE", Use), Keyword("ALTER", Alter), Keyword("SHOW", Show), Keyword("DESCRIBE", Describe),
    Keyword("DESC", Desc)]

  const OBJECTS := [
    Keyword("DATABASE", Database), Keyword("COLLECTION", CollectionWord), Keyword("INDEX", Index),
    Keyword("VINDEX", VIndex)]

  const OBJECT_LISTS := [
    Keyword("DATABASES", Databases), Keyword("COLLECTIONS", Collections), Keyword("INDEXES", Indexes),
    Keyword("VINDEXES", VIndexes)]

  const GROUPING := [
    Keyword("GROUP", Group), Keyword("BY", By), Keyword("HAVING", Having), Keyword("ORDER", Order),
    Keyword("ASC", Asc)]

  const QUERYING := [
    Keyword("LIMIT", Limit), Keyword("OFFSET", Offset), Keyword("IN", In), Keyword("BETWEEN", Between),
    Keyword("LIKE", Like)]

  const ALTERATIONS := [
    Keyword("ADD", Add), Keyword("MODIFY", Modify), Keyword("RENAME", Rename), Keyword("COLUMN", Column),
    Keyword("TO", To)]

  const COLUMN_KEYS := [
    Keyword("PRIMARY", Primary), Keyword("KEY", Key), Keyword("UNIQUE", Unique),
    Keyword("AUTO_INCREMENT", AutoIncrement), Keyword("DEFAULT", Default), Keyword("COMMENT", Comment)]

  const CLAUSES := [
    Keyword("USING", Using), Keyword("WITH", With), Keyword("FROM", From), Keyword("WHERE", Where)]

  const MORE_CLAUSES := [
    Keyword("INTO", Into), Keyword("VALUES", Values), Keyword("SET", Set)]

  const LOGIC := [
    Keyword("AND", And), Keyword("OR", Or), Keyword("NOT", Not), Keyword("AS", As), Keyword("ON", On),
    Keyword("IF", If)]

  const CONSTANTS := [
    Keyword("EXISTS", Exists), Keyword("NULL", Null), Keyword("TRUE", True), Keyword("FALSE", False)]

  predicate IsKeyword(keyword: Keyword) {
    || keyword in STATEMENTS || keyword in OTHER_STATEMENTS || keyword in OBJECTS || keyword in OBJECT_LISTS
    || keyword in GROUPING || keyword in QUERYING || keyword in ALTERATIONS || keyword in COLUMN_KEYS
    || keyword in CLAUSES || keyword in MORE_CLAUSES || keyword in LOGIC || keyword in CONSTANTS
  }

  /** Capital letters of ASCII. */
  predicate Capital(c: char) {
    65 <= c as int <= 90
  }

  /** The same character, or the two cases of one letter. */
  predicate SameLetter(a: char, b: char) {
    a == b || (Capital(a) && b as int == a as int + 32) || (Capital(b) && a as int == b as int + 32)
  }

  ghost predicate SameWord(s: string, t: string) {
    |s| == |t| && forall i | 0 <= i < |s| :: SameLetter(s[i], t[i])
  }

  lemma SameUpper(a: char, b: char)
    requires SameLetter(a, b)
    ensures UpperChar(a) == UpperChar(b)
  {
  }

  /** The case of letters does not matter. */
  lemma CaseDoesNotMatter(s: string, t: string)
    requires SameWord(s, t)
    ensures KeywordType(s) == KeywordType(t)
  {
    hide KeywordTable, UpperChar, SameLetter;
    forall i | 0 <= i < |s|
      ensures ToUpper(s)[i] == ToUpper(t)[i]
    {
      SameUpper(s[i], t[i]);
    }
    assert ToUpper(s) == ToUpper(t);
  }

  lemma StatementsRead()
    ensures KeywordTable("SELECT") == Select
    ensures KeywordTable("INSERT") == Insert
    ensures KeywordTable("DELETE") == Delete
    ensures KeywordTable("UPDATE") == Update
    ensures KeywordTable("CREATE") == Create
    ensures KeywordTable("DROP") == Drop
  {
  }

  lemma OtherStatementsRead()
    ensures KeywordTable("USE") == Use
    ensures KeywordTable("ALTER") == Alter
    ensures KeywordTable("SHOW") == Show
    ensures KeywordTable("DESCRIBE") == Describe
    ensures KeywordTable("DESC") == Desc
  {
  }

  lemma ObjectsRead()
    ensures KeywordTable("DATABASE") == Database
    ensures KeywordTable("COLLECTION") == CollectionWord
    ensures KeywordTable("INDEX") == Index
    ensures KeywordTable("VINDEX") == VIndex
  {
  }

  lemma ObjectListsRead()
    ensures KeywordTable("DATABASES") == Databases
    ensures KeywordTable("COLLECTIONS") == Collections
    ensures KeywordTable("INDEXES") == Indexes
    ensures KeywordTable("VINDEXES") == VIndexes
  {
  }

  lemma GroupingRead()
    ensures KeywordTable("GROUP") == Group
    ensures KeywordTable("BY") == By
    ensures KeywordTable("HAVING") == Having
    ensures KeywordTable("ORDER") == Order
    ensures KeywordTable("ASC") == Asc
  {
  }

  lemma QueryingRead()
    ensures KeywordTable("LIMIT") == Limit
    ensures KeywordTable("OFFSET") == Offset
    ensures KeywordTable("IN") == In
    ensures KeywordTable("BETWEEN") == Between
    ensures KeywordTable("LIKE") == Like
  {
  }

  lemma AlterationsRead()
    ensures KeywordTable("ADD") == Add
    ensures KeywordTable("MODIFY") == Modify
    ensures KeywordTable("RENAME") == Rename
    ensures KeywordTable("COLUMN") == Column
    ensures KeywordTable("TO") == To
  {
  }

  lemma ColumnKeysRead()
    ensures KeywordTable("PRIMARY") == Primary
    ensures KeywordTable("KEY") == Key
    ensures KeywordTable("UNIQUE") == Unique
    ensures KeywordTable("AUTO_INCREMENT") == AutoIncrement
    ensures KeywordTable("DEFAULT") == Default
    ensures KeywordTable("COMMENT") == Comment
  {
  }

  lemma ClausesRead()
    ensures KeywordTable("USING") == Using
    ensures KeywordTable("WITH") == With
    ensures KeywordTable("FROM") == From
    ensures KeywordTable("WHERE") == Where
  {
  }

  lemma MoreClausesRead()
    ensures KeywordTable("INTO") == Into
    ensures KeywordTable("VALUES") == Values
    ensures KeywordTable("SET") == Set
  {
  }

  lemma LogicRead()
    ensures KeywordTable("AND") == And
    ensures KeywordTable("OR") == Or
    ensures KeywordTable("NOT") == Not
    ensures KeywordTable("AS") == As
    ensures KeywordTable("ON") == On
    ensures KeywordTable("IF") == If
  {
  }

  lemma ConstantsRead()
    ensures KeywordTable("EXISTS") == Exists
    ensures KeywordTable("NULL") == Null
    ensures KeywordTable("TRUE") == True
    ensures KeywordTable("FALSE") == False
  {
  }

  lemma StatementsListed(keyword: Keyword)
    requires keyword in STATEMENTS
    ensures IsKeyword(keyword) && KeywordTable(keyword.word) == keyword.kind
  {
    hide KeywordTable;
    StatementsRead();
  }

  lemma StatementsAre()
    ensures IsKeyword(Keyword("SELECT", Select))
    ensures IsKeyword(Keyword("INSERT", Insert))
    ensures IsKeyword(Keyword("DELETE", Delete))
    ensures IsKeyword(Keyword("UPDATE", Update))
    ensures IsKeyword(Keyword("CREATE", Create))
    ensures IsKeyword(Keyword("DROP", Drop))
  {
    hide IsKeyword;
    StatementsListed(STATEMENTS[0]);
    StatementsListed(STATEMENTS[1]);
    StatementsListed(STATEMENTS[2]);
    StatementsListed(STATEMENTS[3]);
    StatementsListed(STATEMENTS[4]);
    StatementsListed(STATEMENTS[5]);
  }

  lemma StatementsShaped(keyword: Keyword)
    requires keyword in STATEMENTS
    ensures ToUpper(keyword.word) == keyword.word && IsWord(keyword.word)
  {
  }

  lemma OtherStatementsListed(keyword: Keyword)
    requires keyword in OTHER_STATEMENTS
    ensures IsKeyword(keyword) && KeywordTable(keyword.word) == keyword.kind
  {
    hide KeywordTable;
    OtherStatementsRead();
  }

  lemma OtherStatementsAre()
    ensures IsKeyword(Keyword("USE", Use))
    ensures IsKeyword(Keyword("ALTER", Alter))
    ensures IsKeyword(Keyword("SHOW", Show))
    ensures IsKeyword(Keyword("DESCRIBE", Describe))
    ensures IsKeyword(Keyword("DESC", Desc))
  {
    hide IsKeyword;
    OtherStatementsListed(OTHER_STATEMENTS[0]);
    OtherStatementsListed(OTHER_STATEMENTS[1]);
    OtherStatementsListed(OTHER_STATEMENTS[2]);
    OtherStatementsListed(OTHER_STATEMENTS[3]);
    OtherStatementsListed(OTHER_STATEMENTS[4]);
  }

  lemma OtherStatementsShaped(keyword: Keyword)
    requires keyword in OTHER_STATEMENTS
    ensures ToUpper(keyword.word) == keyword.word && IsWord(keyword.word)
  {
  }

  lemma ObjectsListed(keyword: Keyword)
    requires keyword in OBJECTS
    ensures IsKeyword(keyword) && KeywordTable(keyword.word) == keyword.kind
  {
    hide KeywordTable;
    ObjectsRead();
  }

  lemma ObjectsAre()
    ensures IsKeyword(Keyword("DATABASE", Database))
    ensures IsKeyword(Keyword("COLLECTION", CollectionWord))
    ensures IsKeyword(Keyword("INDEX", Index))
    ensures IsKeyword(Keyword("VINDEX", VIndex))
  {
    hide IsKeyword;
    ObjectsListed(OBJECTS[0]);
    ObjectsListed(OBJECTS[1]);
    ObjectsListed(OBJECTS[2]);
    ObjectsListed(OBJECTS[3]);
  }

  lemma ObjectsShaped(keyword: Keyword)
    requires keyword in OBJECTS
    ensures ToUpper(keyword.word) == keyword.word && IsWord(keyword.word)
  {
  }

  lemma ObjectListsListed(keyword: Keyword)
    requires keyword in OBJECT_LISTS
    ensures IsKeyword(keyword) && KeywordTable(keyword.word) == keyword.kind
  {
    hide KeywordTable;
    ObjectListsRead();
  }

  lemma ObjectListsAre()
    ensures IsKeyword(Keyword("DATABASES", Databases))
    ensures IsKeyword(Keyword("COLLECTIONS", Collections))
    ensures IsKeyword(Keyword("INDEXES", Indexes))
    ensures IsKeyword(Keyword("VINDEXES", VIndexes))
  {
    hide IsKeyword;
    ObjectListsListed(OBJECT_LISTS[0]);
    ObjectListsListed(OBJECT_LISTS[1]);
    ObjectListsListed(OBJECT_LISTS[2]);
    ObjectListsListed(OBJECT_LISTS[3]);
  }

  lemma ObjectListsShaped(keyword: Keyword)
    requires keyword in OBJECT_LISTS
    ensures ToUpper(keyword.word) == keyword.word && IsWord(keyword.word)
  {
  }

  lemma GroupingListed(keyword: Keyword)
    requires keyword in GROUPING
    ensures IsKeyword(keyword) && KeywordTable(keyword.word) == keyword.kind
  {
    hide KeywordTable;
    GroupingRead();
  }

  lemma GroupingAre()
    ensures IsKeyword(Keyword("GROUP", Group))
    ensures IsKeyword(Keyword("BY", By))
    ensures IsKeyword(Keyword("HAVING", Having))
    ensures IsKeyword(Keyword("ORDER", Order))
    ensures IsKeyword(Keyword("ASC", Asc))
  {
    hide IsKeyword;
    GroupingListed(GROUPING[0]);
    GroupingListed(GROUPING[1]);
    GroupingListed(GROUPING[2]);
    GroupingListed(GROUPING[3]);
    GroupingListed(GROUPING[4]);
  }

  lemma GroupingShaped(keyword: Keyword)
    requires keyword in GROUPING
    ensures ToUpper(keyword.word) == keyword.word && IsWord(keyword.word)
  {
  }

  lemma QueryingListed(keyword: Keyword)
    requires keyword in QUERYING
    ensures IsKeyword(keyword) && KeywordTable(keyword.word) == keyword.kind
  {
    hide KeywordTable;
    QueryingRead();
  }

  lemma QueryingAre()
    ensures IsKeyword(Keyword("LIMIT", Limit))
    ensures IsKeyword(Keyword("OFFSET", Offset))
    ensures IsKeyword(Keyword("IN", In))
    ensures IsKeyword(Keyword("BETWEEN", Between))
    ensures IsKeyword(Keyword("LIKE", Like))
  {
    hide IsKeyword;
    QueryingListed(QUERYING[0]);
    QueryingListed(QUERYING[1]);
    QueryingListed(QUERYING[2]);
    QueryingListed(QUERYING[3]);
    QueryingListed(QUERYING[4]);
  }

  lemma QueryingShaped(keyword: Keyword)
    requires keyword in QUERYING
    ensures ToUpper(keyword.word) == keyword.word && IsWord(keyword.word)
  {
  }

  lemma AlterationsListed(keyword: Keyword)
    requires keyword in ALTERATIONS
    ensures IsKeyword(keyword) && KeywordTable(keyword.word) == keyword.kind
  {
    hide KeywordTable;
    AlterationsRead();
  }

  lemma AlterationsAre()
    ensures IsKeyword(Keyword("ADD", Add))
    ensures IsKeyword(Keyword("MODIFY", Modify))
    ensures IsKeyword(Keyword("RENAME", Rename))
    ensures IsKeyword(Keyword("COLUMN", Column))
    ensures IsKeyword(Keyword("TO", To))
  {
    hide IsKeyword;
    AlterationsListed(ALTERATIONS[0]);
    AlterationsListed(ALTERATIONS[1]);
    AlterationsListed(ALTERATIONS[2]);
    AlterationsListed(ALTERATIONS[3]);
    AlterationsListed(ALTERATIONS[4]);
  }

  lemma AlterationsShaped(keyword: Keyword)
    requires keyword in ALTERATIONS
    ensures ToUpper(keyword.word) == keyword.word && IsWord(keyword.word)
  {
  }

  lemma ColumnKeysListed(keyword: Keyword)
    requires keyword in COLUMN_KEYS
    ensures IsKeyword(keyword) && KeywordTable(keyword.word) == keyword.kind
  {
    hide KeywordTable;
    ColumnKeysRead();
  }

  lemma ColumnKeysAre()
    ensures IsKeyword(Keyword("PRIMARY", Primary))
    ensures IsKeyword(Keyword("KEY", Key))
    ensures IsKeyword(Keyword("UNIQUE", Unique))
    ensures IsKeyword(Keyword("AUTO_INCREMENT", AutoIncrement))
    ensures IsKeyword(Keyword("DEFAULT", Default))
    ensures IsKeyword(Keyword("COMMENT", Comment))
  {
    hide IsKeyword;
    ColumnKeysListed(COLUMN_KEYS[0]);
    ColumnKeysListed(COLUMN_KEYS[1]);
    ColumnKeysListed(COLUMN_KEYS[2]);
    ColumnKeysListed(COLUMN_KEYS[3]);
    ColumnKeysListed(COLUMN_KEYS[4]);
    ColumnKeysListed(COLUMN_KEYS[5]);
  }

  lemma ColumnKeysShaped(keyword: Keyword)
    requires keyword in COLUMN_KEYS
    ensures ToUpper(keyword.word) == keyword.word && IsWord(keyword.word)
  {
  }

  lemma ClausesListed(keyword: Keyword)
    requires keyword in CLAUSES
    ensures IsKeyword(keyword) && KeywordTable(keyword.word) == keyword.kind
  {
    hide KeywordTable;
    ClausesRead();
  }

  lemma ClausesAre()
    ensures IsKeyword(Keyword("USING", Using))
    ensures IsKeyword(Keyword("WITH", With))
    ensures IsKeyword(Keyword("FROM", From))
    ensures IsKeyword(Keyword("WHERE", Where))
  {
    hide IsKeyword;
    ClausesListed(CLAUSES[0]);
    ClausesListed(CLAUSES[1]);
    ClausesListed(CLAUSES[2]);
    ClausesListed(CLAUSES[3]);
  }

  lemma ClausesShaped(keyword: Keyword)
    requires keyword in CLAUSES
    ensures ToUpper(keyword.word) == keyword.word && IsWord(keyword.word)
  {
  }

  lemma MoreClausesListed(keyword: Keyword)
    requires keyword in MORE_CLAUSES
    ensures IsKeyword(keyword) && KeywordTable(keyword.word) == keyword.kind
  {
    hide KeywordTable;
    MoreClausesRead();
  }

  lemma MoreClausesAre()
    ensures IsKeyword(Keyword("INTO", Into))
    ensures IsKeyword(Keyword("VALUES", Values))
    ensures IsKeyword(Keyword("SET", Set))
  {
    hide IsKeyword;
    MoreClausesListed(MORE_CLAUSES[0]);
    MoreClausesListed(MORE_CLAUSES[1]);
    MoreClausesListed(MORE_CLAUSES[2]);
  }

  lemma MoreClausesShaped(keyword: Keyword)
    requires keyword in MORE_CLAUSES
    ensures ToUpper(keyword.word) == keyword.word && IsWord(keyword.word)
  {
  }

  lemma LogicListed(keyword: Keyword)
    requires keyword in LOGIC
    ensures IsKeyword(keyword) && KeywordTable(keyword.word) == keyword.kind
  {
    hide KeywordTable;
    LogicRead();
  }

  lemma LogicAre()
    ensures IsKeyword(Keyword("AND", And))
    ensures IsKeyword(Keyword("OR", Or))
    ensures IsKeyword(Keyword("NOT", Not))
    ensures IsKeyword(Keyword("AS", As))
    ensures IsKeyword(Keyword("ON", On))
    ensures IsKeyword(Keyword("IF", If))
  {
    hide IsKeyword;
    LogicListed(LOGIC[0]);
    LogicListed(LOGIC[1]);
    LogicListed(LOGIC[2]);
    LogicListed(LOGIC[3]);
    LogicListed(LOGIC[4]);
    LogicListed(LOGIC[5]);
  }

  lemma LogicShaped(keyword: Keyword)
    requires keyword in LOGIC
    ensures ToUpper(keyword.word) == keyword.word && IsWord(keyword.word)
  {
  }

  lemma ConstantsListed(keyword: Keyword)
    requires keyword in CONSTANTS
    ensures IsKeyword(keyword) && KeywordTable(keyword.word) == keyword.kind
  {
    hide KeywordTable;
    ConstantsRead();
  }

  lemma ConstantsAre()
    ensures IsKeyword(Keyword("EXISTS", Exists))
    ensures IsKeyword(Keyword("NULL", Null))
    ensures IsKeyword(Keyword("TRUE", True))
    ensures IsKeyword(Keyword("FALSE", False))
  {
    hide IsKeyword;
    ConstantsListed(CONSTANTS[0]);
    ConstantsListed(CONSTANTS[1]);
    ConstantsListed(CONSTANTS[2]);
    ConstantsListed(CONSTANTS[3]);
  }

  lemma ConstantsShaped(keyword: Keyword)
    requires keyword in CONSTANTS
    ensures ToUpper(keyword.word) == keyword.word && IsWord(keyword.word)
  {
  }

  lemma KeywordListed(keyword: Keyword)
    requires IsKeyword(keyword)
    ensures KeywordType(keyword.word) == keyword.kind && IsWord(keyword.word)
  {
    hide KeywordTable, IsWord, ToUpper;
    if keyword in STATEMENTS {
      StatementsListed(keyword);
      StatementsShaped(keyword);
    } else if keyword in OTHER_STATEMENTS {
      OtherStatementsListed(keyword);
      OtherStatementsShaped(keyword);
    } else if keyword in OBJECTS {
      ObjectsListed(keyword);
      ObjectsShaped(keyword);
    } else if keyword in OBJECT_LISTS {
      ObjectListsListed(keyword);
      ObjectListsShaped(keyword);
    } else if keyword in GROUPING {
      GroupingListed(keyword);
      GroupingShaped(keyword);
    } else if keyword in QUERYING {
      QueryingListed(keyword);
      QueryingShaped(keyword);
    } else if keyword in ALTERATIONS {
      AlterationsListed(keyword);
      AlterationsShaped(keyword);
    } else if keyword in COLUMN_KEYS {
      ColumnKeysListed(keyword);
      ColumnKeysShaped(keyword);
    } else if keyword in CLAUSES {
      ClausesListed(keyword);
      ClausesShaped(keyword);
    } else if keyword in MORE_CLAUSES {
      MoreClausesListed(keyword);
      MoreClausesShaped(keyword);
    } else if keyword in LOGIC {
      LogicListed(keyword);
      LogicShaped(keyword);
    } else {
      ConstantsListed(keyword);
      ConstantsShaped(keyword);
    }
  }

  lemma FurtherKeywordOfSixIsListed(upper: string)
    requires FurtherKeywordOfSix(upper) != Identifier
    ensures IsKeyword(Keyword(upper, FurtherKeywordOfSix(upper)))
  {
    hide IsKeyword, KeywordTable;
    QueryingAre();
    AlterationsAre();
    ColumnKeysAre();
    MoreClausesAre();
    ConstantsAre();
  }

  lemma KeywordOfTwoIsListed(upper: string)
    requires KeywordOfTwo(upper) != Identifier
    ensures IsKeyword(Keyword(upper, KeywordOfTwo(upper)))
  {
    hide IsKeyword, KeywordTable;
    GroupingAre();
    QueryingAre();
    AlterationsAre();
    LogicAre();
  }

  lemma KeywordOfThreeIsListed(upper: string)
    requires KeywordOfThree(upper) != Identifier
    ensures IsKeyword(Keyword(upper, KeywordOfThree(upper)))
  {
    hide IsKeyword, KeywordTable;
    OtherStatementsAre();
    GroupingAre();
    AlterationsAre();
    ColumnKeysAre();
    MoreClausesAre();
    LogicAre();
  }

  lemma KeywordOfFourIsListed(upper: string)
    requires KeywordOfFour(upper) != Identifier
    ensures IsKeyword(Keyword(upper, KeywordOfFour(upper)))
  {
    hide IsKeyword, KeywordTable;
    StatementsAre();
    OtherStatementsAre();
    QueryingAre();
    ClausesAre();
    MoreClausesAre();
    ConstantsAre();
  }

  lemma KeywordOfFiveIsListed(upper: string)
    requires KeywordOfFive(upper) != Identifier
    ensures IsKeyword(Keyword(upper, KeywordOfFive(upper)))
  {
    hide IsKeyword, KeywordTable;
    OtherStatementsAre();
    ObjectsAre();
    GroupingAre();
    QueryingAre();
    ClausesAre();
    ConstantsAre();
  }

  lemma KeywordOfSixIsListed(upper: string)
    requires KeywordOfSix(upper) != Identifier
    ensures IsKeyword(Keyword(upper, KeywordOfSix(upper)))
  {
    hide IsKeyword, KeywordTable, FurtherKeywordOfSix;
    StatementsAre();
    ObjectsAre();
    GroupingAre();
    if FurtherKeywordOfSix(upper) != Identifier {
      FurtherKeywordOfSixIsListed(upper);
    }
  }

  lemma KeywordOfSevenIsListed(upper: string)
    requires KeywordOfSeven(upper) != Identifier
    ensures IsKeyword(Keyword(upper, KeywordOfSeven(upper)))
  {
    hide IsKeyword, KeywordTable;
    ObjectListsAre();
    QueryingAre();
    ColumnKeysAre();
  }

  lemma KeywordOfEightIsListed(upper: string)
    requires KeywordOfEight(upper) != Identifier
    ensures IsKeyword(Keyword(upper, KeywordOfEight(upper)))
  {
    hide IsKeyword, KeywordTable;
    OtherStatementsAre();
    ObjectsAre();
    ObjectListsAre();
  }

  lemma KeywordOfNineOrMoreIsListed(upper: string)
    requires KeywordOfNineOrMore(upper) != Identifier
    ensures IsKeyword(Keyword(upper, KeywordOfNineOrMore(upper)))
  {
    hide IsKeyword, KeywordTable;
    ObjectsAre();
    ObjectListsAre();
    ColumnKeysAre();
  }

  lemma TableIsListed(upper: string)
    requires KeywordTable(upper) != Identifier
    ensures IsKeyword(Keyword(upper, KeywordTable(upper)))
  {
    hide IsKeyword;
    hide KeywordOfTwo, KeywordOfThree, KeywordOfFour, KeywordOfFive;
    hide KeywordOfSix, KeywordOfSeven, KeywordOfEight, KeywordOfNineOrMore;
    if |upper| == 2 {
      KeywordOfTwoIsListed(upper);
    } else if |upper| == 3 {
      KeywordOfThreeIsListed(upper);
    } else if |upper| == 4 {
      KeywordOfFourIsListed(upper);
    } else if |upper| == 5 {
      KeywordOfFiveIsListed(upper);
    } else if |upper| == 6 {
      KeywordOfSixIsListed(upper);
    } else if |upper| == 7 {
      KeywordOfSevenIsListed(upper);
    } else if |upper| == 8 {
      KeywordOfEightIsListed(upper);
    } else {
      KeywordOfNineOrMoreIsListed(upper);
    }
  }

  lemma UpperIsSame(s: string)
    ensures SameWord(s, ToUpper(s))
  {
  }

  /** Exactly the listed words are keywords, each of its kind, in any mixture of cases. */
  lemma KeywordsInAnyCase(s: string, kind: TokenType)
    requires kind != Identifier
    ensures KeywordType(s) == kind <==> exists word :: IsKeyword(Keyword(word, kind)) && SameWord(s, word)
  {
    hide KeywordTable, IsKeyword, IsWord;
    if KeywordType(s) == kind {
      TableIsListed(ToUpper(s));
      UpperIsSame(s);
    }
    if word :| IsKeyword(Keyword(word, kind)) && SameWord(s, word) {
      KeywordListed(Keyword(word, kind));
      CaseDoesNotMatter(s, word);
    }
  }

  /** Letters and digits of ASCII and the underscore. */
  predicate WordChar(c: char) {
    48 <= c as int <= 57 || 65 <= c as int <= 90 || c as int == 95 || 97 <= c as int <= 122
  }

  predicate EndsWord(rest: string) {
    rest != "" ==> !WordChar(rest[0])
  }

  lemma WordChars(c: char)
    ensures IsAlnum(c) <==> WordChar(c)
    ensures StartsWord(c) <==> WordChar(c) && !(48 <= c as int <= 57)
  {
  }

  /** In a text a keyword in any mixture of cases is one token, if no word character follows. */
  lemma KeywordInText(keyword: Keyword, s: string, rest: string)
    requires IsKeyword(keyword) && SameWord(s, keyword.word) && EndsWord(rest)
    ensures Lexemes(s + rest) == [Lexeme(keyword.kind, s)] + Lexemes(rest)
  {
    hide KeywordType, IsKeyword, Lexemes;
    KeywordListed(keyword);
    CaseDoesNotMatter(s, keyword.word);
    SameWordIsWord(s, keyword.word);
    if rest != "" {
      WordChars(rest[0]);
    }
    LexWordText(s, rest);
  }

  lemma SameLetterIsLetter(a: char, b: char)
    requires SameLetter(a, b)
    ensures (IsAlnum(a) <==> IsAlnum(b)) && (StartsWord(a) <==> StartsWord(b))
  {
  }

  lemma SameWordIsWord(s: string, t: string)
    requires SameWord(s, t) && IsWord(t)
    ensures IsWord(s)
  {
    hide SameLetter, IsAlnum, StartsWord;
    forall i | 0 <= i < |s|
      ensures IsAlnum(s[i]) && (i == 0 ==> StartsWord(s[i]))
    {
      SameLetterIsLetter(s[i], t[i]);
    }
  }

  /** Any other word of word characters that does not start with a digit is one identifier. */
  lemma IdentifierInText(s: string, rest: string)
    requires s != "" && !(48 <= s[0] as int <= 57) && (forall i | 0 <= i < |s| :: WordChar(s[i])) && EndsWord(rest)
    requires forall keyword: Keyword | IsKeyword(keyword) :: !SameWord(s, keyword.word)
    ensures Lexemes(s + rest) == [Lexeme(Identifier, s)] + Lexemes(rest)
  {
    hide KeywordType, IsKeyword, Lexemes, IsAlnum, StartsWord, WordChar, SameWord;
    if KeywordType(s) != Identifier {
      KeywordsInAnyCase(s, KeywordType(s));
    }
    forall i | 0 <= i < |s|
      ensures IsAlnum(s[i]) && (i == 0 ==> StartsWord(s[i]))
    {
      WordChars(s[i]);
    }
    if rest != "" {
      WordChars(rest[0]);
    }
    LexWordText(s, rest);
  }
}
