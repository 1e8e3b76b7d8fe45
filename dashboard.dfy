/** The admin dashboard's figures (app/admin/page.tsx): four count queries
    and the five most recent downloads. Whether each query is answered is a
    parameter: an unanswered query yields a null count or null data. */
module Dashboard {
  import opened Wrappers
  import opened Store
  import opened Ordering

  datatype Stats = Stats(books: nat, users: nat, downloads: nat, unreadMessages: nat)

  /** Which of the four count queries the store answered. */
  datatype Answered = Answered(books: bool, users: bool, downloads: bool, messages: bool)

  /** `{ count: "exact", head: true }`: the number of matching rows, or null. */
  function CountReply(rows: nat, answered: bool): (r: Option<nat>)
    ensures answered <==> r.Some?
    ensures r.Some? ==> r.value == rows
  {
    if answered then Some(rows) else None
  }

  /** `count || 0`. */
  function OrZero(count: Option<nat>): (r: nat)
    ensures count.None? ==> r == 0
    ensures count.Some? ==> r == count.value
  {
    match count
    case Some(n) => n
    case None => 0
  }

  /** getStats: every book counts whether enabled or not; only unread
      messages count; a missing count reads as 0. */
  function GetStats(books: map<Id, Book>, profiles: map<Id, Profile>, downloads: seq<Download>,
                    messages: map<Id, Message>, answered: Answered): (r: Stats)
    ensures r.books == (if answered.books then |books.Keys| else 0)
    ensures r.users == (if answered.users then |profiles.Keys| else 0)
    ensures r.downloads == (if answered.downloads then |downloads| else 0)
    ensures r.unreadMessages == (if answered.messages then |UnreadIds(messages)| else 0)
    ensures r.unreadMessages <= |messages.Keys|
  {
    UnreadAtMostAll(messages);
    Stats(
      OrZero(CountReply(|books.Keys|, answered.books)),
      OrZero(CountReply(|profiles.Keys|, answered.users)),
      OrZero(CountReply(|downloads|, answered.downloads)),
      OrZero(CountReply(|UnreadIds(messages)|, answered.messages)))
  }

  /** There are never more unread messages than messages. */
  lemma UnreadAtMostAll(messages: map<Id, Message>)
    ensures |UnreadIds(messages)| <= |messages.Keys|
  {
    var u := UnreadIds(messages);
    assert messages.Keys == u + (messages.Keys - u);
  }

  /** Enabling or disabling a book leaves the books figure as it was. */
  lemma BooksStatIgnoresEnabled(books: map<Id, Book>, profiles: map<Id, Profile>, downloads: seq<Download>,
                                messages: map<Id, Message>, answered: Answered, id: Id, enabled: bool)
    ensures GetStats(SetEnabled(books, id, enabled), profiles, downloads, messages, answered)
         == GetStats(books, profiles, downloads, messages, answered)
  {
  }

  /** Reading an unread message takes exactly one off the unread figure;
      reading a read or missing one leaves it as it was. */
  lemma {:induction false} MarkReadLowersUnread(messages: map<Id, Message>, id: Id)
    ensures UnreadIds(MarkRead(messages, id)) == UnreadIds(messages) - {id}
    ensures |UnreadIds(MarkRead(messages, id))|
         == if id in messages && !messages[id].isRead then |UnreadIds(messages)| - 1 else |UnreadIds(messages)|
  {
    var before, after := UnreadIds(messages), UnreadIds(MarkRead(messages, id));
    assert after == before - {id};
    if id in before {
      assert before == after + {id};
    } else {
      assert after == before;
    }
  }

  /** One recent-download line: the download joined with the downloader's
      profile and the book's title. */
  datatype RecentDownload = RecentDownload(
    id: Id,
    downloadedAt: int,
    fullName: Option<string>,
    email: string,
    title: string)

  /** A download joins when both its profile and its book exist (`!inner`). */
  predicate Joins(d: Download, profiles: map<Id, Profile>, books: map<Id, Book>)
    ensures d.userId !in profiles || d.bookId !in books ==> !Joins(d, profiles, books)
  {
    d.userId in profiles && d.bookId in books
  }

  function RowOf(d: Download, profiles: map<Id, Profile>, books: map<Id, Book>): (r: RecentDownload)
    requires Joins(d, profiles, books)
    ensures r.id == d.id && r.downloadedAt == d.downloadedAt
    ensures r.fullName == profiles[d.userId].fullName && r.email == profiles[d.userId].email
    ensures r.title == books[d.bookId].title
  {
    RecentDownload(d.id, d.downloadedAt, profiles[d.userId].fullName,
                   profiles[d.userId].email, books[d.bookId].title)
  }

  /** The inner join of downloads with profiles and books, in table order. */
  function Joined(downloads: seq<Download>, profiles: map<Id, Profile>, books: map<Id, Book>): (r: seq<RecentDownload>)
    ensures |r| <= |downloads|
    ensures forall d :: d in downloads && Joins(d, profiles, books) ==> RowOf(d, profiles, books) in r
    ensures forall x :: x in r ==> exists d :: d in downloads && Joins(d, profiles, books) && x == RowOf(d, profiles, books)
  {
    if downloads == [] then []
    else
      var last := downloads[|downloads| - 1];
      var front := downloads[..|downloads| - 1];
      assert downloads == front + [last];
      Joined(front, profiles, books) + (if Joins(last, profiles, books) then [RowOf(last, profiles, books)] else [])
  }

  function DownloadedAt(x: RecentDownload): int { x.downloadedAt }

  const RecentLimit: nat := 5

  /** getRecentDownloads: the joined rows, newest first, at most five; an
      unanswered query (null data) gives the empty list. */
  function RecentDownloads(downloads: seq<Download>, profiles: map<Id, Profile>, books: map<Id, Book>,
                           answered: bool): (r: seq<RecentDownload>)
    ensures |r| <= RecentLimit
    ensures !answered ==> r == []
    ensures answered ==> |r| == if |Joined(downloads, profiles, books)| <= RecentLimit
                                then |Joined(downloads, profiles, books)| else RecentLimit
    ensures NewestFirst(r, DownloadedAt)
    ensures answered ==> multiset(r) <= multiset(Joined(downloads, profiles, books))
    ensures answered && |Joined(downloads, profiles, books)| <= RecentLimit
            ==> multiset(r) == multiset(Joined(downloads, profiles, books))
    ensures forall x, y :: (x in r && y in multiset(Joined(downloads, profiles, books)) - multiset(r)
                            ==> y.downloadedAt <= x.downloadedAt)
  {
    if !answered then []
    else
      var sorted := SortNewestFirst(Joined(downloads, profiles, books), DownloadedAt);
      LimitKeepsNewest(sorted, DownloadedAt, RecentLimit);
      var r := Limit(sorted, RecentLimit);
      assert |sorted| == |multiset(sorted)| == |Joined(downloads, profiles, books)|;
      assert sorted == r + sorted[|r|..];
      r
  }
}
