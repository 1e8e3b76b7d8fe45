/** Moderation of contact messages (components/admin/messages-table.tsx):
    a message moves from unread to read when an administrator opens it or
    marks it, and never back. */
module Moderation {
  import opened Wrappers
  import opened Store

  /** The status badge of a row. */
  function StatusLabel(m: Message): (s: string)
    ensures s == "New" <==> !m.isRead
    ensures s == "Read" <==> m.isRead
  {
    if m.isRead then "Read" else "New"
  }

  /** The "Mark as read" button is offered for unread rows only. */
  predicate OffersMarkAsRead(m: Message)
    ensures OffersMarkAsRead(m) <==> StatusLabel(m) == "New"
  {
    !m.isRead
  }

  /** The button is offered exactly for the rows on which marking read
      changes the store. */
  lemma OfferedExactlyWhenItChanges(messages: map<Id, Message>, m: Message)
    requires m.id in messages && messages[m.id] == m
    ensures OffersMarkAsRead(m) <==> MarkRead(messages, m.id) != messages
  {
    if !m.isRead {
      assert MarkRead(messages, m.id)[m.id].isRead;
    } else {
      assert m.(isRead := true) == m;
    }
  }

  /** Marking read twice is the same as marking read once. */
  lemma MarkReadIdempotent(messages: map<Id, Message>, id: Id)
    ensures MarkRead(MarkRead(messages, id), id) == MarkRead(messages, id)
  {
  }

  /** Marking read never turns a read message back to unread, and touches no
      other message. */
  lemma MarkReadOnlyForward(messages: map<Id, Message>, id: Id, k: Id)
    requires k in messages
    ensures messages[k].isRead ==> MarkRead(messages, id)[k].isRead
    ensures k != id ==> MarkRead(messages, id)[k] == messages[k]
    ensures k == id ==> MarkRead(messages, id)[k].isRead
  {
  }

  /** Marking a read message read again changes nothing. */
  lemma MarkReadOnReadIsNoop(messages: map<Id, Message>, id: Id)
    requires id in messages && messages[id].isRead
    ensures MarkRead(messages, id) == messages
  {
    assert messages[id].(isRead := true) == messages[id];
  }

  class MessagesTable {
    const db: Database
    /** The message shown in the detail dialog, if any. */
    var selected: Option<Message>

    constructor (db: Database)
      ensures this.db == db && selected.None?
    {
      this.db := db;
      selected := None;
    }

    /** handleView: the message becomes the selected one; if the row shown
        was unread, the store marks it read; a row shown as read causes no
        write at all. */
    method HandleView(m: Message)
      requires db.Valid()
      modifies this, db
      ensures db.Valid()
      ensures selected == Some(m)
      ensures !m.isRead ==> db.messages == MarkRead(old(db.messages), m.id)
      ensures m.isRead ==> db.messages == old(db.messages)
      ensures db.books == old(db.books) && db.downloads == old(db.downloads)
      ensures db.roles == old(db.roles) && db.profiles == old(db.profiles)
    {
      selected := Some(m);
      if !m.isRead {
        db.UpdateMessageRead(m.id);
      }
    }

    /** markAsRead: the store marks the message with this id read. */
    method MarkAsRead(id: Id)
      requires db.Valid()
      modifies db
      ensures db.Valid()
      ensures db.messages == MarkRead(old(db.messages), id)
      ensures db.books == old(db.books) && db.downloads == old(db.downloads)
      ensures db.roles == old(db.roles) && db.profiles == old(db.profiles)
    {
      db.UpdateMessageRead(id);
    }

    /** Closing the detail dialog. */
    method CloseDetail()
      modifies this
      ensures selected.None?
    {
      selected := None;
    }
  }
}
