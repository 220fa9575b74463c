/** The tracker's table of registered peers, the latest first. */
module PeerTable {
  import opened Entries
  import opened Words
  import opened Sequences

  datatype Registered = Registered(conn: int, id: PeerId)

  /** The peers without the latest one registered on `conn`. */
  function Forget(peers: seq<Registered>, conn: int): seq<Registered> {
    if peers == [] then []
    else if peers[0].conn == conn then peers[1..]
    else [peers[0]] + Forget(peers[1..], conn)
  }

  /** The ip of the latest peer registered on `conn`; 0xffffffff, which is -1, when there is none. */
  function IpOf(peers: seq<Registered>, conn: int): nat {
    if peers == [] then ToUint32(-1)
    else if peers[0].conn == conn then ToUint32(peers[0].id.ip)
    else IpOf(peers[1..], conn)
  }

  lemma {:induction false} Found(peers: seq<Registered>, i: nat, conn: int)
    requires i < |peers| && peers[i].conn == conn && forall j :: 0 <= j < i ==> peers[j].conn != conn
    ensures Forget(peers, conn) == Drop(peers, i) && IpOf(peers, conn) == ToUint32(peers[i].id.ip)
  {
    if i > 0 {
      var rest := peers[1..];
      Found(rest, i - 1, conn);
      assert peers == [peers[0]] + rest && rest[i - 1] == peers[i];
    }
  }

  lemma {:induction false} NotFound(peers: seq<Registered>, conn: int)
    requires forall j :: 0 <= j < |peers| ==> peers[j].conn != conn
    ensures Forget(peers, conn) == peers && IpOf(peers, conn) == ToUint32(-1)
  {
    if peers != [] {
      NotFound(peers[1..], conn);
    }
  }

  class PeerTable {
    var peers: seq<Registered>
    var peerNum: int

    ghost predicate Valid()
      reads this
    {
      peerNum == |peers|
    }

    constructor ()
      ensures Valid() && peers == []
    {
      peers, peerNum := [], 0;
    }

    /** peer_table_add */
    method Add(pe: Registered)
      requires Valid()
      modifies this
      ensures Valid()
      ensures peers == [pe] + old(peers)
    {
      peers := [pe] + peers;
      peerNum := peerNum + 1;
    }

    /** peer_table_delete: unlink the first entry with the connection and return its ip as an int,
        or -1 */
    method Delete(conn: int) returns (ret: int)
      requires Valid()
      modifies this
      ensures Valid()
      ensures peers == Forget(old(peers), conn)
      ensures ToUint32(ret) == IpOf(old(peers), conn)
    {
      ret := -1;
      var i := 0;
      while i < |peers|
        invariant i <= |peers| && peers == old(peers) && peerNum == old(peerNum) && ret == -1
        invariant forall j :: 0 <= j < i ==> peers[j].conn != conn
      {
        if peers[i].conn == conn {
          Found(peers, i, conn);
          CutTwice(peers[i].id.ip);
          ret := ToInt32(peers[i].id.ip);
          peers := Drop(peers, i);
          peerNum := peerNum - 1;
          return;
        }
        i := i + 1;
      }
      NotFound(peers, conn);
    }

    /** peer_table_find: the first entry with the ip */
    method Find(ip: nat) returns (r: Option<Registered>)
      ensures r.None? <==> forall i :: 0 <= i < |peers| ==> peers[i].id.ip != ip
      ensures r.Some? ==> exists i :: 0 <= i < |peers| && peers[i] == r.value && peers[i].id.ip == ip
                                      && forall j :: 0 <= j < i ==> peers[j].id.ip != ip
    {
      for i := 0 to |peers|
        invariant forall j :: 0 <= j < i ==> peers[j].id.ip != ip
      {
        if peers[i].id.ip == ip {
          return Some(peers[i]);
        }
      }
      return None;
    }
  }
}
