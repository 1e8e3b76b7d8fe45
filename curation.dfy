/** Catalog curation in the admin area: the books table with its enable /
    disable and delete actions (components/admin/books-table.tsx), the add
    dialog (components/admin/add-book-button.tsx) and the edit dialog
    (components/admin/edit-book-dialog.tsx). Store errors are parameters:
    `fault` is the error message the store answered with, if any. */
module Curation {
  import opened Wrappers
  import opened Store

  /** The form fields as FormData hands them over: always strings, "" when
      left empty. */
  datatype BookForm = BookForm(
    title: string,
    author: string,
    category: string,
    description: string,
    bookUrl: string,
    coverUrl: string)

  /** What the browser lets through: the four required inputs are filled in.
      (That `bookUrl` and `coverUrl` parse as URLs is also checked by the
      browser and is not modelled.) */
  predicate BrowserAccepts(f: BookForm)
    ensures BrowserAccepts(f) ==>
      var fs := FieldsFromForm(f); fs.title != "" && fs.author != "" && fs.category != "" && fs.bookUrl != ""
  {
    f.title != "" && f.author != "" && f.category != "" && f.bookUrl != ""
  }

  /** The columns both dialogs write: empty optional fields become null. */
  function FieldsFromForm(f: BookForm): (r: BookFields)
    ensures r.title == f.title && r.author == f.author && r.category == f.category && r.bookUrl == f.bookUrl
    ensures r.description == NullIfEmpty(f.description) && r.coverUrl == NullIfEmpty(f.coverUrl)
  {
    BookFields(f.title, f.author, f.category, NullIfEmpty(f.description), f.bookUrl, NullIfEmpty(f.coverUrl))
  }

  /** The row the add dialog inserts; the store supplies id and timestamp. */
  function NewBook(f: BookForm, id: Id, now: int): (b: Book)
    ensures b.enabled
    ensures b.id == id && b.createdAt == now
    ensures b.title == f.title && b.author == f.author && b.category == f.category && b.bookUrl == f.bookUrl
    ensures b.description.None? <==> f.description == ""
    ensures b.coverUrl.None? <==> f.coverUrl == ""
    ensures b.description.Some? ==> b.description.value == f.description
    ensures b.coverUrl.Some? ==> b.coverUrl.value == f.coverUrl
  {
    var fields := FieldsFromForm(f);
    Book(id, fields.title, fields.author, fields.category, fields.description,
         fields.bookUrl, fields.coverUrl, true, now)
  }

  /** The edit dialog's initial values: the book's fields, with a null
      description or cover shown as "". */
  function DefaultForm(b: Book): (r: BookForm)
    ensures r.title == b.title && r.author == b.author && r.category == b.category && r.bookUrl == b.bookUrl
    ensures FieldsFromForm(r).description == (if Truthy(b.description) then b.description else None)
    ensures FieldsFromForm(r).coverUrl == (if Truthy(b.coverUrl) then b.coverUrl else None)
  {
    NullIfEmptyOrElse(b.description);
    NullIfEmptyOrElse(b.coverUrl);
    BookForm(b.title, b.author, b.category, OrElse(b.description, ""), b.bookUrl, OrElse(b.coverUrl, ""))
  }

  /** A book whose optional fields are null or non-empty. */
  predicate Normalised(b: Book) {
    (b.description.None? || b.description.value != "") && (b.coverUrl.None? || b.coverUrl.value != "")
  }

  /** Saving the edit dialog without touching it writes the book back as it
      was, when its optional fields are null or non-empty. */
  lemma UntouchedEditKeepsBook(books: map<Id, Book>, id: Id)
    requires id in books && Normalised(books[id])
    ensures UpdateBook(books, id, FieldsFromForm(DefaultForm(books[id]))) == books
  {
    NullIfEmptyOrElse(books[id].description);
    NullIfEmptyOrElse(books[id].coverUrl);
    assert WithFields(books[id], FieldsFromForm(DefaultForm(books[id]))) == books[id];
  }

  /** Every book that came through the add dialog is normalised. */
  lemma NewBookIsNormalised(f: BookForm, id: Id, now: int)
    ensures Normalised(NewBook(f, id, now))
  {
  }

  /** Toggling a book from what the table shows, twice, restores it. */
  lemma ToggleTwiceRestores(books: map<Id, Book>, id: Id)
    requires id in books
    ensures var once := SetEnabled(books, id, !books[id].enabled);
      SetEnabled(once, id, !once[id].enabled) == books
  {
    var once := SetEnabled(books, id, !books[id].enabled);
    assert once[id].(enabled := !once[id].enabled) == books[id];
  }

  /** The status badge reads "Enabled" exactly for enabled books. */
  function StatusBadge(b: Book): (s: string)
    ensures s == "Enabled" <==> b.enabled
    ensures s == "Disabled" <==> !b.enabled
  {
    if b.enabled then "Enabled" else "Disabled"
  }

  /** The table body: an empty-state notice when there are no books,
      otherwise one status per row. */
  datatype BooksView = EmptyNotice | Rows(statuses: seq<string>)

  function BooksTableView(books: seq<Book>): (v: BooksView)
    ensures v.EmptyNotice? <==> books == []
    ensures v.Rows? ==> |v.statuses| == |books| && forall i :: 0 <= i < |books| ==> v.statuses[i] == StatusBadge(books[i])
  {
    if |books| == 0 then EmptyNotice
    else Rows(seq(|books|, i requires 0 <= i < |books| => StatusBadge(books[i])))
  }

  class BooksTable {
    const db: Database
    /** The book awaiting confirmation of its deletion. */
    var deleteId: Option<Id>
    var loading: bool
    /** The book open in the edit dialog. */
    var editBook: Option<Book>

    constructor (db: Database)
      ensures this.db == db && deleteId.None? && !loading && editBook.None?
    {
      this.db := db;
      deleteId := None;
      loading := false;
      editBook := None;
    }

    /** The delete confirmation is open exactly while `deleteId` is set. */
    predicate DeleteDialogOpen()
      reads this
      ensures deleteId.None? ==> !DeleteDialogOpen()
      ensures DeleteDialogOpen() ==> deleteId.Some? && deleteId.value != ""
    {
      Truthy(deleteId)
    }

    /** The row menu's "Delete" item. */
    method AskDelete(id: Id)
      modifies this
      ensures deleteId == Some(id) && loading == old(loading) && editBook == old(editBook)
    {
      deleteId := Some(id);
    }

    /** Dismissing the confirmation. */
    method DismissDelete()
      modifies this
      ensures deleteId.None? && !DeleteDialogOpen()
      ensures loading == old(loading) && editBook == old(editBook)
    {
      deleteId := None;
    }

    /** handleDelete: with no pending id nothing happens; otherwise that book
        is deleted, the dialog closes and loading is off again. */
    method HandleDelete()
      requires db.Valid()
      modifies this, db
      ensures db.Valid()
      ensures !Truthy(old(deleteId)) ==> db.books == old(db.books) && deleteId == old(deleteId) && loading == old(loading)
      ensures Truthy(old(deleteId)) ==> db.books == RemoveBook(old(db.books), old(deleteId).value)
      ensures Truthy(old(deleteId)) ==> deleteId.None? && !loading && !DeleteDialogOpen()
      ensures db.downloads == old(db.downloads) && db.messages == old(db.messages)
      ensures db.roles == old(db.roles) && db.profiles == old(db.profiles)
      ensures editBook == old(editBook)
    {
      if !Truthy(deleteId) {
        return;
      }
      loading := true;
      db.DeleteBook(deleteId.value);
      deleteId := None;
      loading := false;
    }

    /** toggleEnabled: the book with this id gets the opposite of the value
        the table showed. */
    method ToggleEnabled(id: Id, enabled: bool)
      requires db.Valid()
      modifies db
      ensures db.Valid()
      ensures db.books == SetEnabled(old(db.books), id, !enabled)
      ensures db.downloads == old(db.downloads) && db.messages == old(db.messages)
      ensures db.roles == old(db.roles) && db.profiles == old(db.profiles)
    {
      db.UpdateBookEnabled(id, !enabled);
    }

    /** The row menu's "Edit" item, and the edit dialog's `onClose`. */
    method OpenEditor(b: Book)
      modifies this
      ensures editBook == Some(b) && deleteId == old(deleteId) && loading == old(loading)
    {
      editBook := Some(b);
    }

    method CloseEditor()
      modifies this
      ensures editBook.None? && deleteId == old(deleteId) && loading == old(loading)
    {
      editBook := None;
    }
  }

  class AddBookButton {
    const db: Database
    var open: bool
    var loading: bool
    var error: Option<string>

    constructor (db: Database)
      ensures this.db == db && !open && !loading && error.None?
    {
      this.db := db;
      open := false;
      loading := false;
      error := None;
    }

    /** The dialog's trigger and its cancel button. */
    method SetOpen(value: bool)
      modifies this
      ensures open == value && loading == old(loading) && error == old(error)
    {
      open := value;
    }

    /** handleSubmit: insert the form as a new enabled book. On a store error
        the message is shown and the dialog stays open; on success the
        dialog closes. Either way loading is off at the end. */
    method HandleSubmit(form: BookForm, newId: Id, now: int, fault: Option<string>)
      requires db.Valid() && BrowserAccepts(form) && newId !in db.books
      modifies this, db
      ensures db.Valid() && !loading
      ensures fault.Some? ==> error == fault && open == old(open) && db.books == old(db.books)
      ensures fault.None? ==> db.books == AddBook(old(db.books), NewBook(form, newId, now))
      ensures fault.None? ==> !open && error.None?
      ensures db.downloads == old(db.downloads) && db.messages == old(db.messages)
      ensures db.roles == old(db.roles) && db.profiles == old(db.profiles)
    {
      loading := true;
      error := None;
      if fault.Some? {
        error := fault;
        loading := false;
        return;
      }
      db.InsertBook(NewBook(form, newId, now));
      open := false;
      loading := false;
    }
  }

  class EditBookDialog {
    const db: Database
    /** The book being edited, as the table showed it. */
    const book: Book
    var loading: bool
    var error: Option<string>

    constructor (db: Database, book: Book)
      ensures this.db == db && this.book == book && !loading && error.None?
    {
      this.db := db;
      this.book := book;
      loading := false;
      error := None;
    }

    /** handleSubmit: write the six form columns to the row with the book's
        id. On a store error the message is shown and `onClose` is not
        called; on success `onClose` is called. Loading is off at the end. */
    method HandleSubmit(form: BookForm, fault: Option<string>) returns (closed: bool)
      requires db.Valid() && BrowserAccepts(form)
      modifies this, db
      ensures db.Valid() && !loading
      ensures fault.Some? ==> error == fault && !closed && db.books == old(db.books)
      ensures fault.None? ==> db.books == UpdateBook(old(db.books), book.id, FieldsFromForm(form))
      ensures fault.None? ==> closed && error.None?
      ensures db.downloads == old(db.downloads) && db.messages == old(db.messages)
      ensures db.roles == old(db.roles) && db.profiles == old(db.profiles)
    {
      loading := true;
      error := None;
      if fault.Some? {
        error := fault;
        loading := false;
        return false;
      }
      db.UpdateBookFields(book.id, FieldsFromForm(form));
      closed := true;
      loading := false;
    }
  }
}
