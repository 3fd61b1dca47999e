/** server.go: the memory behind the FML3 exchange cache. Both accessors copy every byte slice, so the
    cache shares no memory with anybody and changes only by being replaced. */
module ExchangeCache {
  import opened Bytes
  import opened ForgeRelay

  /** An exchange as it is stored: its byte slices are memory that somebody else could write to. */
  datatype Stored = Stored(request: array<byte>, success: bool, data: array<byte>, noResponse: bool)

  ghost predicate Among(stored: seq<Stored>, memory: set<array<byte>>) {
    forall i :: 0 <= i < |stored| ==> stored[i].request in memory && stored[i].data in memory
  }

  ghost function Load(e: Stored): Exchange
    reads e.request, e.data
  {
    Exchange(e.request[..], e.success, e.data[..], e.noResponse)
  }

  /** What the stored exchanges amount to at the moment. */
  ghost function Loaded(stored: seq<Stored>, memory: set<array<byte>>): (r: seq<Exchange>)
    requires Among(stored, memory)
    reads memory
    ensures |r| == |stored|
  {
    seq(|stored|, i requires 0 <= i < |stored| && Among(stored, memory) reads memory => Load(stored[i]))
  }

  method CopySlice(bytes: array<byte>) returns (copy: array<byte>)
    ensures fresh(copy) && copy[..] == bytes[..]
  {
    copy := new byte[bytes.Length](i requires 0 <= i < bytes.Length reads bytes => bytes[i]);
  }

  method CopyExchange(e: Stored) returns (copy: Stored)
    ensures fresh(copy.request) && fresh(copy.data) && Load(copy) == Load(e)
  {
    var request := CopySlice(e.request);
    var data := CopySlice(e.data);
    copy := Stored(request, e.success, data, e.noResponse);
  }

  /** A deep copy: the same exchanges, in new memory only. */
  method CopyExchanges(stored: seq<Stored>, ghost memory: set<array<byte>>) returns (copy: seq<Stored>, ghost copied: set<array<byte>>)
    requires Among(stored, memory)
    ensures fresh(copied) && Among(copy, copied)
    ensures Loaded(copy, copied) == Loaded(stored, memory)
  {
    copy, copied := [], {};
    for i := 0 to |stored|
      invariant |copy| == i && fresh(copied) && Among(copy, copied)
      invariant forall k :: 0 <= k < i ==> Load(copy[k]) == Load(stored[k])
    {
      var e := CopyExchange(stored[i]);
      copied := copied + {e.request, e.data};
      copy := copy + [e];
    }
  }

  class ForgeLoginCache {
    var stored: seq<Stored>
    ghost var memory: set<array<byte>>

    ghost predicate Valid()
      reads this
    {
      Among(stored, memory)
    }

    ghost function Contents(): seq<Exchange>
      requires Valid()
      reads this, memory
    {
      Loaded(stored, memory)
    }

    constructor ()
      ensures Valid() && fresh(memory) && Contents() == []
    {
      stored, memory := [], {};
    }

    /** ForgeLoginCache: the caller may write to the copy without changing the cache. */
    method Snapshot() returns (copy: seq<Stored>, ghost copied: set<array<byte>>)
      requires Valid()
      ensures fresh(copied) && Among(copy, copied) && Loaded(copy, copied) == Contents()
    {
      copy, copied := CopyExchanges(stored, memory);
    }

    /** SetForgeLoginCache: the caller may go on writing to what it handed in. */
    method Replace(recorded: seq<Stored>, ghost theirs: set<array<byte>>)
      requires Among(recorded, theirs)
      modifies this
      ensures Valid() && fresh(memory) && Contents() == old(Loaded(recorded, theirs))
    {
      stored, memory := CopyExchanges(recorded, theirs);
    }
  }
}
