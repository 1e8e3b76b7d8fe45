/** The book page's two actions (components/books/book-details.tsx): reading
    online and opening the book, which records a download. Anonymous callers
    are sent to the login page. */
module BookAccess {
  import opened Wrappers
  import opened Store
  import opened Auth

  /** How the store handled the download insert. Its reply is never checked:
      a rejected insert still opens the book; only an exception skips it. */
  datatype WriteOutcome = Accepted | Rejected | Threw

  /** What the handler did beyond the store: where the router went, and which
      URL was opened in a new tab. */
  datatype Effect = Effect(navigate: Option<string>, newTab: Option<string>)

  /** The audit trail after a run of accepted downloads of one book by one
      user, each with the id and timestamp the store gave it. */
  function AfterDownloads(prior: seq<Download>, userId: Id, bookId: Id, stamps: seq<(Id, int)>): seq<Download>
  {
    if stamps == [] then prior
    else
      var last := stamps[|stamps| - 1];
      AfterDownloads(prior, userId, bookId, stamps[..|stamps| - 1]) + [Download(last.0, userId, bookId, last.1)]
  }

  /** One more accepted download on top of a run extends the run, so the
      trail after repeated handleDownload calls is AfterDownloads of all stamps. */
  lemma OneMoreDownload(prior: seq<Download>, userId: Id, bookId: Id, stamps: seq<(Id, int)>, x: (Id, int))
    ensures AfterDownloads(AfterDownloads(prior, userId, bookId, stamps), userId, bookId, [x])
         == AfterDownloads(prior, userId, bookId, stamps + [x])
  {
    assert (stamps + [x])[..|stamps|] == stamps;
  }

  /** Downloading the same book n times appends n records, all for that user
      and that book, and leaves the earlier records as they were. */
  lemma {:induction false} NoDeduplication(prior: seq<Download>, userId: Id, bookId: Id, stamps: seq<(Id, int)>)
    ensures |AfterDownloads(prior, userId, bookId, stamps)| == |prior| + |stamps|
    ensures AfterDownloads(prior, userId, bookId, stamps)[..|prior|] == prior
    ensures forall i :: |prior| <= i < |prior| + |stamps| ==>
      AfterDownloads(prior, userId, bookId, stamps)[i] == Download(stamps[i - |prior|].0, userId, bookId, stamps[i - |prior|].1)
  {
    if stamps != [] {
      var n := |stamps| - 1;
      NoDeduplication(prior, userId, bookId, stamps[..n]);
    }
  }

  class BookDetails {
    const book: Book
    /** The signed-in caller, or None for an anonymous visitor. */
    const user: Option<User>
    const db: Database
    var downloading: bool
    var showReader: bool

    constructor (book: Book, user: Option<User>, db: Database)
      ensures this.book == book && this.user == user && this.db == db
      ensures !downloading && !showReader
    {
      this.book := book;
      this.user := user;
      this.db := db;
      downloading := false;
      showReader := false;
    }

    /** handleDownload: anonymous callers go to the login page and leave no
        record; a signed-in caller's download is inserted as
        (user.id, book.id) and then the book URL is opened, unless the insert
        threw. `downloading` is off again at the end. */
    method HandleDownload(recordId: Id, now: int, write: WriteOutcome) returns (effect: Effect)
      requires db.Valid()
      modifies this, db
      ensures db.Valid()
      ensures user.None? ==> effect == Effect(Some(LoginPath), None)
      ensures user.None? ==> db.downloads == old(db.downloads) && downloading == old(downloading)
      ensures user.Some? ==> effect.navigate.None? && !downloading
      ensures user.Some? ==> db.downloads == if write.Accepted?
        then AfterDownloads(old(db.downloads), user.value.id, book.id, [(recordId, now)])
        else old(db.downloads)
      ensures user.Some? ==> effect.newTab == if write.Threw? then None else Some(book.bookUrl)
      ensures db.books == old(db.books) && db.messages == old(db.messages)
      ensures db.roles == old(db.roles) && db.profiles == old(db.profiles)
      ensures showReader == old(showReader)
    {
      if user.None? {
        return Effect(Some(LoginPath), None);
      }
      downloading := true;
      var newTab: Option<string> := None;
      match write {
        case Accepted =>
          db.InsertDownload(Download(recordId, user.value.id, book.id, now));
          newTab := Some(book.bookUrl);
        case Rejected =>
          newTab := Some(book.bookUrl);
        case Threw =>
      }
      downloading := false;
      effect := Effect(None, newTab);
    }

    /** handleRead: anonymous callers go to the login page; a signed-in
        caller gets the embedded reader. Reading records no download. */
    method HandleRead() returns (navigate: Option<string>)
      modifies this
      ensures user.None? ==> navigate == Some(LoginPath) && showReader == old(showReader)
      ensures user.Some? ==> navigate.None? && showReader
      ensures downloading == old(downloading)
      ensures db.downloads == old(db.downloads)
    {
      if user.None? {
        return Some(LoginPath);
      }
      showReader := true;
      navigate := None;
    }

    /** The reader's close button. */
    method CloseReader()
      modifies this
      ensures !showReader && downloading == old(downloading)
    {
      showReader := false;
    }
  }
}
