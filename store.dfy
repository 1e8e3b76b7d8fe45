/** The portal's tables, held in memory in place of the external relational
    store: the rows each table holds, the single-table writes the components
    issue (`insert`, `update ... eq("id", ...)`, `delete ... eq("id", ...)`),
    and a `Database` object whose fields are the tables. */
module Store {
  import opened Wrappers

  /** Row identifiers and user identifiers are opaque strings (UUIDs). */
  type Id = string

  /** A row of `books`. `createdAt` is the store's creation timestamp. */
  datatype Book = Book(
    id: Id,
    title: string,
    author: string,
    category: string,
    description: Option<string>,
    bookUrl: string,
    coverUrl: Option<string>,
    enabled: bool,
    createdAt: int)

  /** A row of `downloads`: the audit record of one opened book. */
  datatype Download = Download(id: Id, userId: Id, bookId: Id, downloadedAt: int)

  /** A row of `contact_messages`. */
  datatype Message = Message(
    id: Id,
    name: string,
    email: string,
    subject: string,
    body: string,
    isRead: bool,
    createdAt: int)

  /** A row of `profiles`; its id is the identity provider's user id. */
  datatype Profile = Profile(
    id: Id,
    fullName: Option<string>,
    email: string,
    phone: Option<string>,
    createdAt: int)

  /** The authenticated caller as the identity provider reports it. */
  datatype User = User(id: Id, email: Option<string>)

  /** The six columns the curation forms write. */
  datatype BookFields = BookFields(
    title: string,
    author: string,
    category: string,
    description: Option<string>,
    bookUrl: string,
    coverUrl: Option<string>)

  /** Every row is stored under its own primary key. */
  predicate BooksKeyed(books: map<Id, Book>) {
    forall k :: k in books ==> books[k].id == k
  }

  predicate MessagesKeyed(messages: map<Id, Message>) {
    forall k :: k in messages ==> messages[k].id == k
  }

  predicate ProfilesKeyed(profiles: map<Id, Profile>) {
    forall k :: k in profiles ==> profiles[k].id == k
  }

  /** The ids of the messages not yet read. */
  function UnreadIds(messages: map<Id, Message>): (r: set<Id>)
    ensures r <= messages.Keys
    ensures forall k :: k in messages ==> (k in r <==> !messages[k].isRead)
  {
    set k | k in messages && !messages[k].isRead
  }

  /** `update contact_messages set is_read = true where id = id`. */
  function MarkRead(messages: map<Id, Message>, id: Id): (r: map<Id, Message>)
    ensures r.Keys == messages.Keys
    ensures id in r ==> r[id] == messages[id].(isRead := true)
    ensures forall k :: k in r && k != id ==> r[k] == messages[k]
  {
    if id in messages then messages[id := messages[id].(isRead := true)] else messages
  }

  /** `update books set enabled = enabled where id = id`. */
  function SetEnabled(books: map<Id, Book>, id: Id, enabled: bool): (r: map<Id, Book>)
    ensures r.Keys == books.Keys
    ensures id in r ==> r[id] == books[id].(enabled := enabled)
    ensures forall k :: k in r && k != id ==> r[k] == books[k]
  {
    if id in books then books[id := books[id].(enabled := enabled)] else books
  }

  /** `delete from books where id = id`: a hard delete. */
  function RemoveBook(books: map<Id, Book>, id: Id): (r: map<Id, Book>)
    ensures r.Keys == books.Keys - {id}
    ensures forall k :: k in r ==> r[k] == books[k]
  {
    books - {id}
  }

  /** `insert into books`: the row is stored under its own id. */
  function AddBook(books: map<Id, Book>, b: Book): (r: map<Id, Book>)
    ensures r.Keys == books.Keys + {b.id}
    ensures r[b.id] == b
    ensures forall k :: k in books && k != b.id ==> r[k] == books[k]
  {
    books[b.id := b]
  }

  /** The book with the six form columns replaced and everything else kept. */
  function WithFields(b: Book, f: BookFields): (r: Book)
    ensures r.id == b.id && r.enabled == b.enabled && r.createdAt == b.createdAt
    ensures r.title == f.title && r.author == f.author && r.category == f.category
    ensures r.description == f.description && r.bookUrl == f.bookUrl && r.coverUrl == f.coverUrl
  {
    b.(title := f.title, author := f.author, category := f.category,
       description := f.description, bookUrl := f.bookUrl, coverUrl := f.coverUrl)
  }

  /** `update books set <the six columns> where id = id`. */
  function UpdateBook(books: map<Id, Book>, id: Id, f: BookFields): (r: map<Id, Book>)
    ensures r.Keys == books.Keys
    ensures id in r ==> r[id] == WithFields(books[id], f)
    ensures forall k :: k in r && k != id ==> r[k] == books[k]
  {
    if id in books then books[id := WithFields(books[id], f)] else books
  }

  /** The in-memory store. Each method is one write the portal issues; no
      method touches a table it does not name. */
  class Database {
    var books: map<Id, Book>
    var downloads: seq<Download>
    var messages: map<Id, Message>
    var roles: map<Id, string>
    var profiles: map<Id, Profile>

    ghost predicate Valid()
      reads this
    {
      BooksKeyed(books) && MessagesKeyed(messages) && ProfilesKeyed(profiles)
    }

    constructor (books: map<Id, Book>, downloads: seq<Download>, messages: map<Id, Message>,
                 roles: map<Id, string>, profiles: map<Id, Profile>)
      requires BooksKeyed(books) && MessagesKeyed(messages) && ProfilesKeyed(profiles)
      ensures Valid()
      ensures this.books == books && this.downloads == downloads && this.messages == messages
      ensures this.roles == roles && this.profiles == profiles
    {
      this.books := books;
      this.downloads := downloads;
      this.messages := messages;
      this.roles := roles;
      this.profiles := profiles;
    }

    method InsertDownload(d: Download)
      requires Valid()
      modifies this
      ensures Valid()
      ensures downloads == old(downloads) + [d]
      ensures books == old(books) && messages == old(messages)
      ensures roles == old(roles) && profiles == old(profiles)
    {
      downloads := downloads + [d];
    }

    method UpdateMessageRead(id: Id)
      requires Valid()
      modifies this
      ensures Valid()
      ensures messages == MarkRead(old(messages), id)
      ensures books == old(books) && downloads == old(downloads)
      ensures roles == old(roles) && profiles == old(profiles)
    {
      messages := MarkRead(messages, id);
    }

    method UpdateBookEnabled(id: Id, enabled: bool)
      requires Valid()
      modifies this
      ensures Valid()
      ensures books == SetEnabled(old(books), id, enabled)
      ensures downloads == old(downloads) && messages == old(messages)
      ensures roles == old(roles) && profiles == old(profiles)
    {
      books := SetEnabled(books, id, enabled);
    }

    method DeleteBook(id: Id)
      requires Valid()
      modifies this
      ensures Valid()
      ensures books == RemoveBook(old(books), id)
      ensures downloads == old(downloads) && messages == old(messages)
      ensures roles == old(roles) && profiles == old(profiles)
    {
      books := RemoveBook(books, id);
    }

    /** The store assigns the new row a fresh id. */
    method InsertBook(b: Book)
      requires Valid() && b.id !in books
      modifies this
      ensures Valid()
      ensures books == AddBook(old(books), b)
      ensures downloads == old(downloads) && messages == old(messages)
      ensures roles == old(roles) && profiles == old(profiles)
    {
      books := AddBook(books, b);
    }

    method UpdateBookFields(id: Id, f: BookFields)
      requires Valid()
      modifies this
      ensures Valid()
      ensures books == UpdateBook(old(books), id, f)
      ensures downloads == old(downloads) && messages == old(messages)
      ensures roles == old(roles) && profiles == old(profiles)
    {
      books := UpdateBook(books, id, f);
    }
  }
}
