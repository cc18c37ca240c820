/** The contact store (internal/contacts/store.go): a Go slice in memory, and a
    file that save either replaces or leaves alone. */
module Contacts {
  import opened Common
  import opened Calls

  datatype Contact = Contact(id: string, name: string, address: string, symbol: string,
                             coinName: string, notes: string, createdAt: int, updatedAt: int)

  datatype Draft = Draft(name: string, address: string, symbol: string, coinName: string, notes: string)

  datatype Problem = NameRequired | NameTooLong | AddressRequired | SymbolRequired | NotesTooLong
                   | NotFound | SaveFailed

  /** The checks Add and Update share, in the order they are made. */
  function Check(d: Draft): Option<Problem> {
    if d.name == "" then Some(NameRequired)
    else if |d.name| > 64 then Some(NameTooLong)
    else if d.address == "" then Some(AddressRequired)
    else if d.symbol == "" then Some(SymbolRequired)
    else if |d.notes| > 500 then Some(NotesTooLong)
    else None
  }

  /** Which drafts pass, and what is wrong with the others: the first of the checks that fails. */
  lemma CheckExact(d: Draft)
    ensures Check(d) == None <==> 0 < |d.name| <= 64 && d.address != "" && d.symbol != "" && |d.notes| <= 500
    ensures Check(d) == Some(NameRequired) <==> d.name == ""
    ensures Check(d) == Some(NameTooLong) <==> |d.name| > 64
    ensures Check(d) == Some(AddressRequired) <==> 0 < |d.name| <= 64 && d.address == ""
    ensures Check(d) == Some(SymbolRequired) <==> 0 < |d.name| <= 64 && d.address != "" && d.symbol == ""
    ensures Check(d) == Some(NotesTooLong) <==>
            0 < |d.name| <= 64 && d.address != "" && d.symbol != "" && |d.notes| > 500
  {
  }

  function NewContact(id: string, d: Draft, now: int): Contact {
    Contact(id, d.name, d.address, d.symbol, d.coinName, d.notes, now, now)
  }

  function Edited(c: Contact, d: Draft, now: int): Contact {
    Contact(c.id, d.name, d.address, d.symbol, d.coinName, d.notes, c.createdAt, now)
  }

  /** Index of the first contact with the id, |list| if there is none. */
  function IndexOf(list: seq<Contact>, id: string): (i: nat)
    ensures i <= |list| && (i < |list| ==> list[i].id == id)
    ensures forall k :: 0 <= k < i ==> list[k].id != id
  {
    if list == [] then 0 else if list[0].id == id then 0 else 1 + IndexOf(list[1..], id)
  }

  // ----- the effect of one call

  datatype Op =
    | Add(draft: Draft, freshId: string, now: int)
    | Update(id: string, draft: Draft, now: int)
    | Delete(id: string)

  /** What the list would be if the save succeeds, or why the call fails earlier. */
  function Planned(list: seq<Contact>, op: Op): Result<seq<Contact>, Problem> {
    match op
    case Add(d, id, now) =>
      if Check(d).Some? then Err(Check(d).value) else Ok(list + [NewContact(id, d, now)])
    case Update(id, d, now) =>
      var i := IndexOf(list, id);
      if Check(d).Some? then Err(Check(d).value)
      else if i == |list| then Err(NotFound)
      else Ok(list[i := Edited(list[i], d, now)])
    case Delete(id) =>
      var i := IndexOf(list, id);
      if i == |list| then Err(NotFound) else Ok(list[..i] + list[i + 1..])
  }

  /** A call that returned: the list afterwards and the error, if any. */
  function Effect(list: seq<Contact>, op: Op, saved: bool): (seq<Contact>, Option<Problem>) {
    match Planned(list, op)
    case Err(p) => (list, Some(p))
    case Ok(next) => if saved then (next, None) else (list, Some(SaveFailed))
  }

  // ----- whole runs

  datatype State = State(mem: seq<Contact>, disk: Option<seq<Contact>>) {
    /** What is in memory is what the file holds; a missing file holds nothing. */
    predicate InSync() {
      mem == if disk.None? then [] else disk.value
    }
  }

  datatype Call = Call(op: Op, saved: bool)

  function Made(s: State, c: Call): (State, bool) {
    var (next, err) := Effect(s.mem, c.op, c.saved);
    (State(next, if err == None then Some(next) else s.disk), err == None)
  }

  function After(s: State, c: Call): State {
    Made(s, c).0
  }

  /** Whatever is called and whichever saves fail, memory and file agree. */
  lemma {:induction false} RunStaysInSync(s: State, calls: seq<Call>)
    requires s.InSync()
    ensures Run(Made, s, calls).InSync()
  {
    if calls != [] {
      RunStaysInSync(s, calls[..|calls| - 1]);
    }
  }

  /** A call that returned an error might as well not have been made. */
  lemma ErrorsInvisible(s: State, calls: seq<Call>)
    ensures Run(Made, s, Completed(Made, s, calls)) == Run(Made, s, calls)
  {
    FailedCallsInvisible(Made, s, calls);
  }

  ghost predicate DistinctIds(list: seq<Contact>) {
    forall i, j :: 0 <= i < j < |list| ==> list[i].id != list[j].id
  }

  // ----- the list against a map from ids

  type Book = map<string, Contact>

  /** The list holds exactly the contacts of the book, each id once. */
  ghost predicate Represents(list: seq<Contact>, book: Book) {
    DistinctIds(list) &&
    (forall c :: c in list ==> Find(book, c.id) == Some(c)) &&
    (forall id :: id in book ==> book[id] in list && book[id].id == id)
  }

  /** What each call means for a reader who finds contacts by id. */
  function BookEffect(book: Book, op: Op, saved: bool): (Book, Option<Problem>) {
    if !op.Delete? && Check(op.draft).Some? then (book, Check(op.draft))
    else if !op.Add? && op.id !in book then (book, Some(NotFound))
    else if !saved then (book, Some(SaveFailed))
    else
      match op
      case Add(d, id, now) => (book[id := NewContact(id, d, now)], None)
      case Update(id, d, now) => (book[id := Edited(book[id], d, now)], None)
      case Delete(id) => (book - {id}, None)
  }

  lemma FoundById(list: seq<Contact>, book: Book, id: string)
    requires Represents(list, book)
    ensures var i := IndexOf(list, id); if i < |list| then Find(book, id) == Some(list[i]) else id !in book
  {
  }

  lemma AddRepresents(list: seq<Contact>, book: Book, c: Contact)
    requires Represents(list, book) && c.id !in book
    ensures Represents(list + [c], book[c.id := c])
  {
    forall x | x in list ensures x.id != c.id {
      assert Find(book, x.id) == Some(x);
    }
  }

  lemma UpdateRepresents(list: seq<Contact>, book: Book, i: nat, c: Contact)
    requires Represents(list, book) && i < |list| && c.id == list[i].id
    ensures Represents(list[i := c], book[c.id := c])
  {
    var next := list[i := c];
    assert next[i] == c;
    forall x | x in next ensures Find(book[c.id := c], x.id) == Some(x) {
      var k :| 0 <= k < |next| && next[k] == x;
      assert k != i ==> list[k] in list && list[k].id != list[i].id;
    }
    forall id | id in book && id != c.id ensures book[id] in next {
      var k :| 0 <= k < |list| && list[k] == book[id];
      assert next[k] == list[k];
    }
  }

  /** next is list without position i. */
  ghost predicate Without(list: seq<Contact>, i: nat, next: seq<Contact>) {
    i < |list| && |next| == |list| - 1 && forall k :: 0 <= k < |next| ==> next[k] == list[if k < i then k else k + 1]
  }

  lemma CutIsWithout(list: seq<Contact>, i: nat)
    requires i < |list|
    ensures Without(list, i, list[..i] + list[i + 1..])
  {
  }

  lemma WithoutKeeps(list: seq<Contact>, i: nat, next: seq<Contact>)
    requires DistinctIds(list) && Without(list, i, next)
    ensures DistinctIds(next)
    ensures forall x :: x in next <==> x in list && x.id != list[i].id
  {
    forall x | x in list && x.id != list[i].id ensures x in next {
      var k :| 0 <= k < |list| && list[k] == x;
      assert next[if k < i then k else k - 1] == x;
    }
  }

  lemma DeleteRepresents(list: seq<Contact>, book: Book, i: nat)
    requires Represents(list, book) && i < |list|
    ensures Represents(list[..i] + list[i + 1..], book - {list[i].id})
  {
    CutIsWithout(list, i);
    var next := list[..i] + list[i + 1..];
    WithoutKeeps(list, i, next);
    hide DistinctIds, Without;
  }

  /** A call does to the list what it means for the book, with the same error. */
  lemma EffectRepresents(list: seq<Contact>, book: Book, op: Op, saved: bool)
    requires Represents(list, book) && (op.Add? ==> op.freshId !in book)
    ensures Effect(list, op, saved).1 == BookEffect(book, op, saved).1
    ensures Represents(Effect(list, op, saved).0, BookEffect(book, op, saved).0)
  {
    hide Represents, IndexOf;
    match op {
      case Add(d, id, now) =>
        AddRepresents(list, book, NewContact(id, d, now));
      case Update(id, d, now) =>
        FoundById(list, book, id);
        var i := IndexOf(list, id);
        if i < |list| {
          UpdateRepresents(list, book, i, Edited(list[i], d, now));
        }
      case Delete(id) =>
        FoundById(list, book, id);
        if IndexOf(list, id) < |list| {
          DeleteRepresents(list, book, IndexOf(list, id));
        }
    }
  }

  function Entered(book: Book, c: Call): (Book, bool) {
    var (next, err) := BookEffect(book, c.op, c.saved);
    (next, err == None)
  }

  /** Every id an Add is given is new: not in the book, not given before. */
  ghost predicate FreshIds(book: Book, calls: seq<Call>) {
    (forall i :: 0 <= i < |calls| && calls[i].op.Add? ==> calls[i].op.freshId !in book) &&
    (forall i, j :: 0 <= i < j < |calls| && calls[i].op.Add? && calls[j].op.Add? ==>
       calls[i].op.freshId != calls[j].op.freshId)
  }

  lemma {:induction false} NewIdsStayNew(book: Book, calls: seq<Call>, id: string)
    requires id !in book && forall i :: 0 <= i < |calls| && calls[i].op.Add? ==> calls[i].op.freshId != id
    ensures id !in Run(Entered, book, calls)
  {
    if calls != [] {
      NewIdsStayNew(book, calls[..|calls| - 1], id);
    }
  }

  /** Over any run of calls, whichever saves fail, the list in memory holds exactly
      the contacts of a plain map from ids. */
  lemma {:induction false} RunRepresents(s: State, book: Book, calls: seq<Call>)
    requires Represents(s.mem, book) && FreshIds(book, calls)
    ensures Represents(Run(Made, s, calls).mem, Run(Entered, book, calls))
  {
    hide Represents;
    if calls != [] {
      var front, last := calls[..|calls| - 1], calls[|calls| - 1];
      RunRepresents(s, book, front);
      if last.op.Add? {
        NewIdsStayNew(book, front, last.op.freshId);
      }
      EffectRepresents(Run(Made, s, front).mem, Run(Entered, book, front), last.op, last.saved);
    }
  }

  /** The calls that cannot have changed the contact under the id. */
  predicate Spares(c: Call, id: string) {
    !c.saved || (if c.op.Add? then c.op.freshId != id else c.op.id != id) || (!c.op.Delete? && Check(c.op.draft).Some?)
  }

  lemma SparedEntry(book: Book, c: Call, id: string)
    requires Spares(c, id)
    ensures Find(Entered(book, c).0, id) == Find(book, id)
  {
  }

  lemma {:induction false} SparedRun(book: Book, calls: seq<Call>, id: string)
    requires forall i :: 0 <= i < |calls| ==> Spares(calls[i], id)
    ensures Find(Run(Entered, book, calls), id) == Find(book, id)
  {
    hide Spares;
    if calls != [] {
      SparedRun(book, calls[..|calls| - 1], id);
      SparedEntry(Run(Entered, book, calls[..|calls| - 1]), calls[|calls| - 1], id);
    }
  }

  /** The contact has the five fields of the draft. */
  predicate Holds(c: Contact, d: Draft) {
    c.name == d.name && c.address == d.address && c.symbol == d.symbol && c.coinName == d.coinName && c.notes == d.notes
  }

  /** A contact keeps the time it was created, however often it is edited, until it is deleted. */
  lemma {:induction false} KeepsCreation(book: Book, calls: seq<Call>, id: string)
    requires id in book && FreshIds(book, calls)
    requires forall i :: 0 <= i < |calls| ==> calls[i].op != Delete(id)
    ensures var end := Run(Entered, book, calls); id in end && end[id].createdAt == book[id].createdAt
  {
    if calls != [] {
      var front := calls[..|calls| - 1];
      KeepsCreation(book, front, id);
    }
  }

  /** What is read under an id is the last draft saved for it, with the time of that call. */
  lemma LastDraftIsRead(book: Book, front: seq<Call>, last: Call, rest: seq<Call>, id: string)
    requires last.saved && !last.op.Delete? && Check(last.op.draft) == None
    requires if last.op.Add? then last.op.freshId == id else last.op.id == id && id in Run(Entered, book, front)
    requires forall i :: 0 <= i < |rest| ==> Spares(rest[i], id)
    ensures var before, end := Run(Entered, book, front), Run(Entered, Run(Entered, book, front + [last]), rest);
            id in end && Holds(end[id], last.op.draft) && end[id].updatedAt == last.op.now &&
            end[id].id == (if last.op.Add? then id else before[id].id) &&
            end[id].createdAt == (if last.op.Add? then last.op.now else before[id].createdAt)
  {
    RunOneMore(book, front, last);
    SparedRun(Run(Entered, book, front + [last]), rest, id);
    hide Run, Spares;
  }

  lemma RunOneMore(book: Book, front: seq<Call>, last: Call)
    ensures Run(Entered, book, front + [last]) == Entered(Run(Entered, book, front), last).0
  {
    assert (front + [last])[..|front|] == front;
  }

  /** A deleted contact is not found again, as long as none is added under its id. */
  lemma DeletedIsGone(book: Book, front: seq<Call>, id: string, rest: seq<Call>)
    requires forall i :: 0 <= i < |rest| && rest[i].op.Add? ==> rest[i].op.freshId != id
    ensures id !in Run(Entered, Run(Entered, book, front + [Call(Op.Delete(id), true)]), rest)
  {
    RunOneMore(book, front, Call(Op.Delete(id), true));
    NewIdsStayNew(Run(Entered, book, front + [Call(Op.Delete(id), true)]), rest, id);
  }

  /** The same for the list in memory: over any run from a list that holds the book,
      a contact that is not deleted is there with the time it was created. */
  lemma ListKeepsCreation(s: State, book: Book, calls: seq<Call>, id: string)
    requires Represents(s.mem, book) && FreshIds(book, calls) && id in book
    requires forall i :: 0 <= i < |calls| ==> calls[i].op != Delete(id)
    ensures exists c :: c in Run(Made, s, calls).mem && c.id == id && c.createdAt == book[id].createdAt
  {
    hide FreshIds;
    RunRepresents(s, book, calls);
    KeepsCreation(book, calls, id);
    hide Run;
    assert Run(Entered, book, calls)[id] in Run(Made, s, calls).mem;
  }

  /** Re-inserting what was shifted out gives the list back. */
  lemma ShiftBack(before: seq<Contact>, i: nat, removed: Contact, shifted: seq<Contact>)
    requires i < |before| && before[i] == removed && shifted == before[..i] + before[i + 1..]
    ensures shifted[..i] + ([removed] + shifted[i..]) == before
  {
  }

  // ----- the store

  /** The contacts slice is data[..len]; capacity beyond len is kept for appends. */
  class ContactStore {
    var data: array<Contact>
    var len: nat
    var file: Option<seq<Contact>>

    ghost predicate Valid()
      reads this
    {
      len <= data.Length
    }

    ghost function Items(): seq<Contact>
      requires Valid()
      reads this, data
    {
      data[..len]
    }

    ghost function View(): State
      requires Valid()
      reads this, data
    {
      State(Items(), file)
    }

    /** Load: the decrypted file, or an empty list when there is none. */
    constructor (file: Option<seq<Contact>>)
      ensures Valid() && View() == State(if file.None? then [] else file.value, file) && fresh(data)
    {
      var items := if file.None? then [] else file.value;
      data := new Contact[|items|](i requires 0 <= i < |items| => items[i]);
      len := |items|;
      this.file := file;
    }

    /** contacts = append(contacts[:keep], items...): in place when the capacity
        allows it, otherwise in a new array that overshoots by extra. The items
        may come from the same backing array; the copy is a memmove. */
    method AppendAt(keep: nat, items: seq<Contact>, extra: nat)
      requires Valid() && keep <= len
      modifies this, data
      ensures Valid() && Items() == old(data[..keep]) + items && file == old(file)
      ensures if keep + |items| <= old(data.Length) then data == old(data) else fresh(data)
    {
      var need := keep + |items|;
      if need > data.Length {
        var small := data;
        data := new Contact[need + extra](i requires 0 <= i < need + extra reads small =>
          if i < small.Length then small[i] else Contact("", "", "", "", "", "", 0, 0));
      }
      for i := 0 to |items|
        invariant need <= data.Length
        invariant data[..keep] == old(data[..keep])
        invariant data[keep..keep + i] == items[..i]
        modifies data
      {
        data[keep + i] := items[i];
      }
      len := need;
      assert data[..need] == data[..keep] + data[keep..need];
    }

    /** Writes a temporary file and renames it, or fails without touching the file. */
    method Save(saved: bool)
      requires Valid()
      modifies `file
      ensures file == if saved then Some(Items()) else old(file)
    {
      if saved {
        file := Some(data[..len]);
      }
    }

    method FindIndex(id: string) returns (i: nat)
      requires Valid()
      ensures i == IndexOf(Items(), id)
    {
      i := 0;
      while i < len
        invariant i <= len
        invariant IndexOf(Items(), id) == i + IndexOf(Items()[i..], id)
      {
        if data[i].id == id {
          return;
        }
        i := i + 1;
      }
    }

    method Add(d: Draft, freshId: string, now: int, saved: bool, extra: nat) returns (r: Result<Contact, Problem>)
      requires Valid()
      modifies this, data
      ensures Valid() && View() == After(old(View()), Call(Op.Add(d, freshId, now), saved))
      ensures data == old(data) || fresh(data)
      ensures match r
              case Ok(c) => c == NewContact(freshId, d, now)
              case Err(p) => Effect(old(Items()), Op.Add(d, freshId, now), saved).1 == Some(p)
      ensures r.Ok? <==> Effect(old(Items()), Op.Add(d, freshId, now), saved).1 == None
      ensures r.Ok? <==> saved && 0 < |d.name| <= 64 && d.address != "" && d.symbol != "" && |d.notes| <= 500
      ensures r.Ok? ==> r.value == Contact(freshId, d.name, d.address, d.symbol, d.coinName, d.notes, now, now)
      ensures Items() == if r.Ok? then old(Items()) + [r.value] else old(Items())
    {
      if Check(d).Some? {
        return Err(Check(d).value);
      }
      var contact := NewContact(freshId, d, now);
      AppendAt(len, [contact], extra);
      Save(saved);
      if !saved {
        len := len - 1;
        assert data[..len] == (data[..len] + [contact])[..len];
        return Err(SaveFailed);
      }
      return Ok(contact);
    }

    method Update(id: string, d: Draft, now: int, saved: bool) returns (r: Result<Contact, Problem>)
      requires Valid()
      modifies this, data
      ensures Valid() && View() == After(old(View()), Call(Op.Update(id, d, now), saved))
      ensures data == old(data)
      ensures match r
              case Ok(c) => c in Items() && c.id == id && c == Edited(old(Items())[IndexOf(old(Items()), id)], d, now)
              case Err(p) => Effect(old(Items()), Op.Update(id, d, now), saved).1 == Some(p)
      ensures r.Ok? <==> Effect(old(Items()), Op.Update(id, d, now), saved).1 == None
      ensures r.Ok? ==> saved && 0 < |d.name| <= 64 && d.address != "" && d.symbol != "" && |d.notes| <= 500
      ensures r.Ok? ==>
                exists i :: 0 <= i < |old(Items())| && old(Items()[i]).id == id && Items() == old(Items())[i := r.value] &&
                  r.value == Contact(id, d.name, d.address, d.symbol, d.coinName, d.notes, old(Items()[i]).createdAt, now)
      ensures r.Err? ==> Items() == old(Items())
    {
      if Check(d).Some? {
        return Err(Check(d).value);
      }
      var idx := FindIndex(id);
      if idx == len {
        return Err(NotFound);
      }
      var before := data[idx];
      data[idx] := Edited(data[idx], d, now);
      assert Items() == old(Items())[idx := data[idx]];
      Save(saved);
      if !saved {
        data[idx] := before;
        assert Items() == old(Items());
        return Err(SaveFailed);
      }
      assert Items()[idx] == data[idx];
      return Ok(data[idx]);
    }

    /** Shifts the tail left over the contact; when the save fails, a second
        append on the same array shifts it back. */
    method Delete(id: string, saved: bool) returns (r: Option<Problem>)
      requires Valid()
      modifies this, data
      ensures Valid() && View() == After(old(View()), Call(Op.Delete(id), saved))
      ensures data == old(data)
      ensures r == Effect(old(Items()), Op.Delete(id), saved).1
      ensures r == None ==>
                exists i :: 0 <= i < |old(Items())| && old(Items()[i]).id == id &&
                  Items() == old(Items())[..i] + old(Items())[i + 1..]
      ensures r != None ==> Items() == old(Items())
      ensures r == Some(NotFound) <==> forall i :: 0 <= i < |old(Items())| ==> old(Items()[i]).id != id
    {
      var idx := FindIndex(id);
      if idx == len {
        return Some(NotFound);
      }
      var removed := data[idx];
      ghost var before := Items();
      assert before[idx] == removed && before[..idx] == data[..idx] && before[idx + 1..] == data[idx + 1..len];
      AppendAt(idx, data[idx + 1..len], 0);
      assert Items() == before[..idx] + before[idx + 1..];
      Save(saved);
      if !saved {
        ShiftBack(before, idx, removed, Items());
        assert data[..idx] == Items()[..idx] && data[idx..len] == Items()[idx..];
        AppendAt(idx, [removed] + data[idx..len], 0);
        return Some(SaveFailed);
      }
      return None;
    }

    method List() returns (result: seq<Contact>)
      requires Valid()
      ensures result == Items()
    {
      return data[..len];
    }

    method GetByID(id: string) returns (r: Option<Contact>)
      requires Valid()
      ensures r.None? <==> forall i :: 0 <= i < len ==> data[i].id != id
      ensures r.Some? ==> exists i :: 0 <= i < len && data[i] == r.value && data[i].id == id &&
                                      forall k :: 0 <= k < i ==> data[k].id != id
    {
      var i := FindIndex(id);
      if i == len {
        assert forall k :: 0 <= k < len ==> data[k] == Items()[k];
        return None;
      }
      assert forall k :: 0 <= k < len ==> data[k] == Items()[k];
      return Some(data[i]);
    }
  }
}
