/** A small schema worked through the compiler: a book with its author. */
module Scenarios {
  import opened Wrappers
  import opened Schema
  import opened Layout
  import opened FieldPrinter
  import opened Selection

  const Id: TypeDef := TypeDef("ID", Scalar, [])
  const Str: TypeDef := TypeDef("String", Scalar, [])
  const Book: TypeDef := TypeDef("Book", Object, [
    FieldDef("id", NonNullOf(Named("ID"))),
    FieldDef("title", NonNullOf(Named("String"))),
    FieldDef("author", NonNullOf(Named("Author")))])
  const Author: TypeDef := TypeDef("Author", Object, [
    FieldDef("id", NonNullOf(Named("ID"))),
    FieldDef("name", NonNullOf(Named("String")))])
  const Query: TypeDef := TypeDef("Query", Object, [
    FieldDef("books", NonNullOf(ListOf(NonNullOf(Named("Book")))))])
  const Introspection: TypeDef := TypeDef("__Type", Object, [FieldDef("name", Named("String"))])

  /** `type Query { books: [Book!]! } type Book { id: ID! title: String! author: Author! }
      type Author { id: ID! name: String! }`, with one introspection type. */
  const Library: Schema := Schema([Query, Book, Author, Id, Str, Introspection], Some("Query"), None, None)

  /** The object types of the book schema, in declaration order. */
  lemma LibraryVisibleObjects()
    ensures VisibleObjectNames(Library.types) == ["Query", "Book", "Author"]
  {
    var types := Library.types;
    assert !IsVisibleObject(Introspection) && !IsVisibleObject(Id) && !IsVisibleObject(Str);
    assert "Query"[..2][0] != '_' && "Book"[..2][0] != '_' && "Author"[..2][0] != '_';
    assert IsVisibleObject(Query) && IsVisibleObject(Book) && IsVisibleObject(Author);
    assert VisibleObjectNames(types[5..]) == [];
    assert VisibleObjectNames(types[3..]) == [] by {
      assert types[3..][1..] == types[4..] && types[4..][1..] == types[5..];
    }
    assert types[1..][1..] == types[2..] && types[2..][1..] == types[3..];
    assert VisibleObjectNames(types[2..]) == ["Author"] by {
      assert types[2..][1..] == types[3..] && types[2..][0] == Author;
    }
    assert VisibleObjectNames(types[1..]) == ["Book", "Author"] by {
      assert types[1..][0] == Book;
    }
  }

  /** Only `Query` is a root of the book schema. */
  lemma LibraryWithoutRoots()
    ensures WithoutRoots(["Query", "Book", "Author"], Library) == ["Book", "Author"]
  {
    assert WithoutRoots(["Author"], Library) == ["Author"];
    assert WithoutRoots(["Book", "Author"], Library) == ["Book", "Author"];
  }

  /** The query root and the introspection type get no fragments. */
  lemma LibraryCandidates()
    ensures Candidates(Library) == Ok(["Book", "Author"])
  {
    LibraryVisibleObjects();
    LibraryWithoutRoots();
  }

  const AuthorField: FieldDef := FieldDef("author", NonNullOf(Named("Author")))

  /** `author: Author!` resolves to the object type `Author`. */
  lemma AuthorFieldIsObject()
    ensures Unwrap([Author], AuthorField.typeRef) == Ok(Classified(Object, "Author"))
  {
    assert TypeDefOf([Author], "Author") == Some(Author);
  }

  lemma StandardAuthorLine()
    ensures "author" + " {" + Indent(2) + "..." + SpreadTarget("Author", Default) + Indent(1) + "}"
            == "author {\n    ...AuthorNoNesting\n  }"
  {
    assert Indent(1) == "\n  " && Indent(2) == "\n    ";
    assert SpreadTarget("Author", Default) == "AuthorNoNesting";
    assert "author" + " {" == "author {";
    assert "author {" + "\n    " == "author {\n    ";
    assert "author {\n    " + "..." == "author {\n    ...";
    assert "author {\n    ..." + "AuthorNoNesting" == "author {\n    ...AuthorNoNesting";
    assert "author {\n    ...AuthorNoNesting" + "\n  " == "author {\n    ...AuthorNoNesting\n  ";
  }

  /** The standard fragment spreads `AuthorNoNesting` into the author field. */
  lemma AuthorFieldStandard()
    ensures PrintField([Author], AuthorField, Default) == Ok(Some("author {\n    ...AuthorNoNesting\n  }"))
  {
    AuthorFieldIsObject();
    StandardAuthorLine();
  }

  /** The `NoNesting` fragment leaves the author field out. */
  lemma AuthorFieldWithoutRelations()
    ensures PrintField([Author], AuthorField, NoRelations) == Ok(None)
  {
    AuthorFieldIsObject();
  }

  /** The deep fragment spreads the standard `Author` fragment, not `AuthorDeepNesting`. */
  lemma AuthorFieldDeep()
    ensures PrintField([Author], AuthorField, Deep) == Ok(Some("author {\n    ...Author\n  }"))
  {
    AuthorFieldIsObject();
    assert Emit(Classified(Object, "Author"), "author", Deep) == Some("author {\n    ...Author\n  }") by {
      assert Indent(1) == "\n  " && Indent(2) == "\n    ";
      assert SpreadTarget("Author", Deep) == "Author";
      assert "author" + " {" + "\n    " + "..." + "Author" + "\n  " + "}" == "author {\n    ...Author\n  }";
    }
  }

  /** `tags: [String!]!` is left out although its type is a list of scalars, and
      `labels: [String]` throws. */
  lemma ListShapes()
    ensures PrintField([Str], FieldDef("tags", NonNullOf(ListOf(NonNullOf(Named("String"))))), Default) == Ok(None)
    ensures PrintField([Str], FieldDef("tags", ListOf(NonNullOf(Named("String")))), Default) == Ok(Some("tags"))
    ensures PrintField([Str], FieldDef("labels", ListOf(Named("String"))), Default) == Err(NullDereference("name"))
  {
  }
}
