/** The saved-session log: its entries, the storage slot they are persisted
    to, and the latest-first listing of renderHistory (script.js). */
module History {

  /** One finished session, as endTest records it. */
  datatype Entry = Entry(wpm: real, accuracy: real, time: int, difficulty: string, date: string)

  /** What the storage slot holds: nothing, text that does not parse, or a
      saved log. */
  datatype Slot = Absent | Unreadable | Saved(entries: seq<Entry>)

  /** loadHistory: a missing or unreadable slot reads as an empty log. */
  function Load(slot: Slot): (h: seq<Entry>)
    ensures slot.Saved? ==> h == slot.entries
    ensures !slot.Saved? ==> h == []
  {
    match slot
    case Saved(entries) => entries
    case _ => []
  }

  /** saveHistory: the whole log replaces the slot's contents; a failed write
      is swallowed and leaves the slot as it was. */
  function Save(slot: Slot, h: seq<Entry>, ok: bool): (r: Slot)
    ensures ok ==> Load(r) == h
    ensures !ok ==> r == slot
  {
    if ok then Saved(h) else slot
  }

  /** The log reversed. */
  function Reverse<T>(s: seq<T>): (r: seq<T>)
    ensures |r| == |s|
    ensures forall i :: 0 <= i < |s| ==> r[i] == s[|s| - 1 - i]
  {
    if s == [] then [] else Reverse(s[1..]) + [s[0]]
  }

  /** renderHistory's order: latest session first. */
  function Listing(h: seq<Entry>): (rows: seq<Entry>)
    ensures |rows| == |h|
    ensures forall i :: 0 <= i < |h| ==> rows[i] == h[|h| - 1 - i]
  {
    Reverse(h)
  }

  /** Listing after one more session puts that session on top and keeps the
      others in their order below it. */
  lemma ListingAppend(h: seq<Entry>, e: Entry)
    ensures Listing(h + [e]) == [e] + Listing(h)
  {
    var l, r := Listing(h + [e]), [e] + Listing(h);
    assert |l| == |r|;
    forall i | 0 <= i < |l| ensures l[i] == r[i] {
      if i > 0 {
        assert r[i] == Listing(h)[i - 1];
      }
    }
  }

  /** Reversing the listing gives back insertion order. */
  lemma ListingReversible(h: seq<Entry>)
    ensures Reverse(Listing(h)) == h
  {
  }
}
