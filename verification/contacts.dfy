/** Contacts and pinned identity keys. */
module Contacts {
  // What `verified` means over any run of the contact operations. A bundle is looked up by its name and
  // stored by its account; names are unique, so that a name that is taken by another account aborts the
  // statement, and a new name starts out unverified.

  import opened Ids

  // A published bundle, reduced to what identifies it.
  datatype Bundle = Bundle(account: AccountId, username: nat, key: nat)

  datatype Contact = Contact(bundle: Bundle, verified: bool, changed: bool)

  type Book = map<AccountId, Contact>

  /** contact_by_username. */
  predicate Holds(book: Book, username: nat, account: AccountId) {
    account in book && book[account].bundle.username == username
  }

  /** The username is taken by another account: UNIQUE(username) aborts the statement. */
  predicate Taken(book: Book, b: Bundle) {
    exists a :: a in book && a != b.account && book[a].bundle.username == b.username
  }

  /** upsert_contact; None when the statement aborts. */
  function Upsert(book: Book, b: Bundle): Option<Book> {
    if Taken(book, b) then None
    else
      var known := Holds(book, b.username, b.account);
      var changed := known && book[b.account].bundle.key != b.key;
      var verified := known && book[b.account].verified && !changed;
      Some(book[b.account := Contact(b, verified, changed)])
  }

  function Verify(book: Book, account: AccountId): Book {
    if account in book then book[account := book[account].(verified := true, changed := false)] else book
  }

  class ContactTable {
    var book: Book

    constructor ()
      ensures book == map[]
    {
      book := map[];
    }

    /** The old row is looked up by username before the insert. */
    method UpsertContact(b: Bundle) returns (ok: bool)
      modifies this
      ensures ok == Upsert(old(book), b).Some?
      ensures book == if ok then Upsert(old(book), b).value else old(book)
    {
      var found: Option<Contact> := None;
      if exists a :: a in book && book[a].bundle.username == b.username {
        var a :| a in book && book[a].bundle.username == b.username;
        found := Some(book[a]);
        if a != b.account {
          return false;
        }
      }
      if Taken(book, b) {
        return false;
      }
      var changed := found.Some? && found.value.bundle.key != b.key;
      var verified := found.Some? && found.value.verified && !changed;
      book := book[b.account := Contact(b, verified, changed)];
      ok := true;
    }

    method VerifyContact(account: AccountId)
      modifies this
      ensures book == Verify(old(book), account)
    {
      if account in book {
        book := book[account := book[account].(verified := true, changed := false)];
      }
    }
  }

  datatype Op = Fetched(bundle: Bundle) | Checked(account: AccountId) | Deleted(account: AccountId)

  // The table, and for each account the key that the user last checked.
  datatype State = State(book: Book, pinned: map<AccountId, nat>)

  function Step(s: State, op: Op): State {
    match op
    case Fetched(b) =>
      (match Upsert(s.book, b)
       case None => s
       case Some(book) => s.(book := book))
    case Checked(a) =>
      if a in s.book then State(Verify(s.book, a), s.pinned[a := s.book[a].bundle.key]) else s
    case Deleted(a) => s.(book := s.book - {a})
  }

  function Run(s: State, ops: seq<Op>): State
    decreases |ops|
  {
    if ops == [] then s else Run(Step(s, ops[0]), ops[1..])
  }

  /** A contact shown as verified has the very key that was checked. */
  ghost predicate Pinned(s: State) {
    && (forall a :: a in s.book ==> s.book[a].bundle.account == a)
    && (forall a :: a in s.book && s.book[a].verified ==> a in s.pinned && s.pinned[a] == s.book[a].bundle.key)
    && (forall a, b :: a in s.book && b in s.book && s.book[a].bundle.username == s.book[b].bundle.username ==> a == b)
  }

  lemma {:induction false} RunKeepsPinned(s: State, ops: seq<Op>)
    requires Pinned(s)
    ensures Pinned(Run(s, ops))
    decreases |ops|
  {
    if ops == [] {
    } else {
      RunKeepsPinned(Step(s, ops[0]), ops[1..]);
    }
  }

  /** From an empty address book on, a contact shown as verified has the key that was checked. */
  lemma PinnedFromStart(ops: seq<Op>)
    ensures Pinned(Run(State(map[], map[]), ops))
  {
    RunKeepsPinned(State(map[], map[]), ops);
  }

  /** A fetched bundle leaves a contact verified if and only if it was, under this name, with this key. */
  lemma StaysVerifiedExactly(book: Book, b: Bundle)
    requires Upsert(book, b).Some?
    ensures Upsert(book, b).value[b.account].verified
       <==> b.account in book && book[b.account].verified
            && book[b.account].bundle == b.(account := book[b.account].bundle.account)
  {
  }

  /**
   A bundle is refused if and only if another account has its name; otherwise only its account's contact
   changes, and a changed key is reported if and only if that contact had this name and another key.
   */
  lemma UpsertExactly(book: Book, b: Bundle)
    ensures Upsert(book, b).None? <==> exists a :: a in book && a != b.account && book[a].bundle.username == b.username
    ensures var after := Upsert(book, b);
            after.Some? ==>
              && b.account in after.value && after.value[b.account].bundle == b
              && after.value == book[b.account := after.value[b.account]]
              && (after.value[b.account].changed
                  <==> b.account in book && book[b.account].bundle.username == b.username
                       && book[b.account].bundle.key != b.key)
  {
  }

  /** The warning about a changed key lasts until the same bundle is fetched once more. */
  lemma ChangeWarningIsCleared(book: Book, b: Bundle)
    requires Upsert(book, b).Some?
    ensures Upsert(Upsert(book, b).value, b).Some?
    ensures !Upsert(Upsert(book, b).value, b).value[b.account].changed
    ensures Upsert(book, b).value[b.account].changed ==> !Upsert(Upsert(book, b).value, b).value[b.account].verified
  {
    var once := Upsert(book, b).value;
    assert !Taken(once, b) by {
      forall a | a in once && a != b.account ensures once[a].bundle.username != b.username {
        assert a in book;
      }
    }
  }
}
