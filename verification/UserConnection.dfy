/** Sessions: which user is connected from which address, and how far the user's message ids have gone. */
module UserConnection {
  import opened Options
  import opened ServerTypes

  /** UserConnectionData: two session slots and the last message id. */
  datatype Connection = Connection(one: Option<Address>, two: Option<Address>, lastMsgId: nat) {
    predicate Has(a: Address) {
      one == Some(a) || two == Some(a)
    }

    predicate Available() {
      one.None? || two.None?
    }
  }

  /** The two maps, each of which determines the other. */
  datatype Connections = Connections(byUser: map<UserId, Connection>, byAddress: map<Address, UserId>)

  predicate Online(c: Connections, u: UserId) {
    u in c.byUser
  }

  /** get_user_id_from_address */
  function UserAt(c: Connections, a: Address): UserId {
    if a in c.byAddress then c.byAddress[a] else INVALID_ID
  }

  /** get_address_from_user, the empty slots left out. */
  function SessionsOf(c: Connections, u: UserId): (s: seq<Address>)
    ensures |s| <= 2
  {
    if u !in c.byUser then []
    else
      var d := c.byUser[u];
      (if d.one.Some? then [d.one.value] else []) + (if d.two.Some? then [d.two.value] else [])
  }

  /** add_or_update_user_address */
  function Added(c: Connections, u: UserId, a: Address): Connections {
    if u !in c.byUser then
      Connections(c.byUser[u := Connection(Some(a), None, 0)], c.byAddress[a := u])
    else
      var d := c.byUser[u];
      if d.Has(a) || !d.Available() then c
      else
        var d' := if d.one.None? then d.(one := Some(a)) else d.(two := Some(a));
        Connections(c.byUser[u := d'], c.byAddress[a := u])
  }

  /** remove_address; an address in neither slot of its user is left alone. */
  function Removed(c: Connections, a: Address): Connections
    requires Agree(c)
  {
    if a !in c.byAddress then c
    else
      var u := c.byAddress[a];
      assert u in c.byUser;
      var d := c.byUser[u];
      var d' := if d.one == Some(a) then d.(one := None) else d.(two := None);
      Connections(if d'.one.None? && d'.two.None? then c.byUser - {u} else c.byUser[u := d'], c.byAddress - {a})
  }

  /** get_next_msg_id, and the connections after it. */
  function NextMsgId(c: Connections, u: UserId): int {
    if u in c.byUser then c.byUser[u].lastMsgId + 1 else 0
  }

  function Counted(c: Connections, u: UserId): Connections {
    if u !in c.byUser then c
    else c.(byUser := c.byUser[u := c.byUser[u].(lastMsgId := c.byUser[u].lastMsgId + 1)])
  }

  /** Both maps describe one relation, and every user present has one or two different sessions. */
  ghost predicate Agree(c: Connections) {
    && (forall a :: a in c.byAddress ==> c.byAddress[a] in c.byUser && c.byUser[c.byAddress[a]].Has(a))
    && (forall u :: u in c.byUser ==>
          && (c.byUser[u].one.Some? || c.byUser[u].two.Some?)
          && (c.byUser[u].one.Some? ==> c.byUser[u].one != c.byUser[u].two)
          && (c.byUser[u].one.Some? ==> PointsTo(c, c.byUser[u].one.value, u))
          && (c.byUser[u].two.Some? ==> PointsTo(c, c.byUser[u].two.value, u)))
  }

  ghost predicate PointsTo(c: Connections, a: Address, u: UserId) {
    a in c.byAddress && c.byAddress[a] == u
  }

  /** Read either way, the relation is the same; each address has one user, each user one or two addresses. */
  lemma OneRelation(c: Connections, a: Address, u: UserId)
    requires Agree(c)
    ensures PointsTo(c, a, u) <==> a in SessionsOf(c, u)
    ensures u in c.byUser <==> SessionsOf(c, u) != []
    ensures Distinct(SessionsOf(c, u))
  {
    if u in c.byUser {
      assert a in SessionsOf(c, u) <==> c.byUser[u].Has(a);
    }
  }

  /** Connecting from an address that no other user holds keeps the maps in agreement, adds exactly that session
      if a slot is free, and touches nobody else. */
  lemma AddedAgrees(c: Connections, u: UserId, a: Address)
    requires Agree(c) && (a in c.byAddress ==> c.byAddress[a] == u)
    requires u in c.byUser ==> c.byUser[u].Available()
    ensures Agree(Added(c, u, a))
    ensures forall b :: b in SessionsOf(Added(c, u, a), u) <==> b == a || b in SessionsOf(c, u)
    ensures forall v :: v != u ==> (v in Added(c, u, a).byUser <==> v in c.byUser)
    ensures forall v :: v != u && v in c.byUser ==> Added(c, u, a).byUser[v] == c.byUser[v]
    ensures u in Added(c, u, a).byUser
    ensures Added(c, u, a).byUser[u].lastMsgId == if u in c.byUser then c.byUser[u].lastMsgId else 0
  {
    var c' := Added(c, u, a);
    AddedKeepsAgreement(c, u, a);
    hide Agree;
    forall b ensures b in SessionsOf(c', u) <==> b == a || b in SessionsOf(c, u) {
      assert b in SessionsOf(c', u) <==> c'.byUser[u].Has(b);
      assert u in c.byUser ==> (b in SessionsOf(c, u) <==> c.byUser[u].Has(b));
    }
  }

  lemma AddedKeepsAgreement(c: Connections, u: UserId, a: Address)
    requires Agree(c) && (a in c.byAddress ==> c.byAddress[a] == u)
    ensures Agree(Added(c, u, a))
  {
  }

  /** Disconnecting an address removes exactly that session, and the user with the last one. */
  lemma RemovedAgrees(c: Connections, a: Address)
    requires Agree(c)
    ensures Agree(Removed(c, a)) && a !in Removed(c, a).byAddress
    ensures forall v :: v != UserAt(c, a) ==> (v in Removed(c, a).byUser <==> v in c.byUser)
    ensures forall v :: v != UserAt(c, a) && v in c.byUser ==> Removed(c, a).byUser[v] == c.byUser[v]
    ensures a in c.byAddress ==>
              forall b :: (b in SessionsOf(Removed(c, a), c.byAddress[a]) <==> b != a && b in SessionsOf(c, c.byAddress[a]))
    ensures a in c.byAddress && c.byAddress[a] in Removed(c, a).byUser ==>
              Removed(c, a).byUser[c.byAddress[a]].lastMsgId == c.byUser[c.byAddress[a]].lastMsgId
  {
    if a in c.byAddress {
      var u, c' := c.byAddress[a], Removed(c, a);
      assert u in c.byUser && c.byUser[u].Has(a);
      forall b ensures b in SessionsOf(c', u) <==> b != a && b in SessionsOf(c, u) {
        assert b in SessionsOf(c, u) <==> c.byUser[u].Has(b);
        assert u in c'.byUser ==> (b in SessionsOf(c', u) <==> c'.byUser[u].Has(b));
      }
      assert Agree(c') by {
        forall b | b in c'.byAddress ensures c'.byAddress[b] in c'.byUser && c'.byUser[c'.byAddress[b]].Has(b) {
          assert b in c.byAddress && c.byUser[c.byAddress[b]].Has(b);
        }
      }
    }
  }

  lemma CountedAgrees(c: Connections, u: UserId)
    requires Agree(c)
    ensures Agree(Counted(c, u))
    ensures Counted(c, u).byUser.Keys == c.byUser.Keys && Counted(c, u).byAddress == c.byAddress
    ensures forall v :: SessionsOf(Counted(c, u), v) == SessionsOf(c, v)
    ensures NextMsgId(c, u) == 0 <==> !Online(c, u)
  {
    var c' := Counted(c, u);
    forall v | v in c'.byUser ensures c'.byUser[v].one == c.byUser[v].one && c'.byUser[v].two == c.byUser[v].two {
    }
  }

  class UserConnectionManager {
    var userIdToConnectionData: map<UserId, Connection>
    var addressToUserId: map<Address, UserId>

    constructor ()
      ensures View() == Connections(map[], map[])
    {
      userIdToConnectionData, addressToUserId := map[], map[];
    }

    function View(): Connections
      reads this
    {
      Connections(userIdToConnectionData, addressToUserId)
    }

    predicate UserIdExists(u: UserId)
      reads this
    {
      u in userIdToConnectionData
    }

    predicate SessionAvailable(u: UserId)
      reads this
    {
      UserIdExists(u) && userIdToConnectionData[u].Available()
    }

    predicate AddressExists(a: Address)
      reads this
    {
      a in addressToUserId
    }

    function GetUserIdFromAddress(a: Address): UserId
      reads this
    {
      UserAt(View(), a)
    }

    method AddOrUpdateUserAddress(u: UserId, a: Address)
      modifies this
      ensures View() == Added(old(View()), u, a)
    {
      if !UserIdExists(u) {
        userIdToConnectionData := userIdToConnectionData[u := Connection(Some(a), None, 0)];
        addressToUserId := addressToUserId[a := u];
        return;
      }
      var data := userIdToConnectionData[u];
      if data.one == Some(a) || data.two == Some(a) {
        return;
      }
      if data.one.Some? && data.two.Some? {
        return;
      }
      if data.one.None? {
        userIdToConnectionData := userIdToConnectionData[u := data.(one := Some(a))];
      } else {
        userIdToConnectionData := userIdToConnectionData[u := data.(two := Some(a))];
      }
      addressToUserId := addressToUserId[a := u];
    }

    /** With agreeing maps, the lookup of the user succeeds and the address is in one of the slots. */
    method RemoveAddress(a: Address)
      requires Agree(View())
      modifies this
      ensures View() == Removed(old(View()), a)
    {
      if !AddressExists(a) {
        return;
      }
      var u := addressToUserId[a];
      assert u in userIdToConnectionData && userIdToConnectionData[u].Has(a);
      var data := userIdToConnectionData[u];
      if data.one == Some(a) {
        data := data.(one := None);
      } else if data.two == Some(a) {
        data := data.(two := None);
      } else {
        assert false;
      }
      userIdToConnectionData := userIdToConnectionData[u := data];
      addressToUserId := addressToUserId - {a};
      if data.one.None? && data.two.None? {
        userIdToConnectionData := userIdToConnectionData - {u};
        assert userIdToConnectionData == old(userIdToConnectionData) - {u};
      }
    }

    method GetNextMsgId(u: UserId) returns (id: int)
      modifies this
      ensures id == NextMsgId(old(View()), u) && View() == Counted(old(View()), u)
    {
      if !UserIdExists(u) {
        return 0;
      }
      var data := userIdToConnectionData[u];
      id := data.lastMsgId + 1;
      userIdToConnectionData := userIdToConnectionData[u := data.(lastMsgId := id)];
    }

    method GetAddressFromUser(u: UserId) returns (one: Option<Address>, two: Option<Address>)
      ensures (if one.Some? then [one.value] else []) + (if two.Some? then [two.value] else []) == SessionsOf(View(), u)
    {
      if !UserIdExists(u) {
        return None, None;
      }
      one, two := userIdToConnectionData[u].one, userIdToConnectionData[u].two;
    }
  }
}
