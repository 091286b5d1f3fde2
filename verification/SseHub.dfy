/**
 The SSE hub of internal/broadcast/sse.go: two indexes over the connected clients, the
 connection caps, bounded queues, and eviction of slow clients. Each method is one section
 under the hub's lock, or one send of a broadcast, which happens outside it.
 */
module SseHub {
  import opened Wrappers

  type Topic = string

  const QUEUE := 64

  /** nextClientID: the clock reading and a counter that never repeats. */
  datatype ClientId = ClientId(nanos: int, serial: nat)

  class Client {
    const id: ClientId
    const ip: string
    const topics: set<Topic>
    var send: seq<string>
    var closed: bool
    var active: int

    constructor (id: ClientId, ip: string, topics: set<Topic>, now: int)
      ensures this.id == id && this.ip == ip && this.topics == topics
      ensures send == [] && !closed && active == now
    {
      this.id, this.ip, this.topics := id, ip, topics;
      send, closed, active := [], false, now;
    }

    /** Closing a channel twice is a fault, so it must still be open. */
    method Close()
      requires !closed
      modifies this`closed
      ensures closed
    {
      closed := true;
    }

    /** The non-blocking send of the select statement; sending on a closed channel is a fault. */
    method TrySend(data: string) returns (sent: bool)
      requires !closed
      modifies this`send
      ensures sent <==> |old(send)| < 64
      ensures send == if sent then old(send) + [data] else old(send)
    {
      sent := |send| < QUEUE;
      if sent {
        send := send + [data];
      }
    }
  }

  // ---------------------------------------------------------------------------
  // The topic index as a function of the subscriptions

  /** id is listed under t exactly when it is subscribed to t; no bucket is empty. */
  ghost predicate IndexAgrees(subs: map<ClientId, set<Topic>>, index: map<Topic, set<ClientId>>)
  {
    && (forall t :: t in index ==> index[t] != {} && forall id :: id in index[t] ==> id in subs && t in subs[id])
    && (forall id, t :: id in subs && t in subs[id] ==> t in index && id in index[t])
  }

  function AddToIndex(index: map<Topic, set<ClientId>>, id: ClientId, topics: set<Topic>): map<Topic, set<ClientId>>
  {
    map t | t in index.Keys + topics ::
      (if t in index then index[t] else {}) + (if t in topics then {id} else {})
  }

  function DropFromIndex(index: map<Topic, set<ClientId>>, id: ClientId, topics: set<Topic>): map<Topic, set<ClientId>>
  {
    map t | t in index && !(t in topics && index[t] <= {id}) ::
      if t in topics then index[t] - {id} else index[t]
  }

  /** The subscriptions determine the topic index. */
  lemma IndexIsDetermined(subs: map<ClientId, set<Topic>>, a: map<Topic, set<ClientId>>, b: map<Topic, set<ClientId>>)
    requires IndexAgrees(subs, a) && IndexAgrees(subs, b)
    ensures a == b
  {
    forall t
      ensures t in a <==> t in b
      ensures t in a && t in b ==> a[t] == b[t]
    {
      if t in a {
        var id :| id in a[t];
        assert t in subs[id];
      }
      if t in b {
        var id :| id in b[t];
        assert t in subs[id];
      }
      if t in a && t in b {
        assert forall id :: id in a[t] <==> id in b[t];
      }
    }
    assert a.Keys == b.Keys;
  }

  lemma AddKeepsAgreement(subs: map<ClientId, set<Topic>>, index: map<Topic, set<ClientId>>, id: ClientId,
                          topics: set<Topic>)
    requires IndexAgrees(subs, index) && id !in subs
    ensures IndexAgrees(subs[id := topics], AddToIndex(index, id, topics))
  {
  }

  lemma DropKeepsAgreement(subs: map<ClientId, set<Topic>>, index: map<Topic, set<ClientId>>, id: ClientId)
    requires IndexAgrees(subs, index) && id in subs
    ensures IndexAgrees(subs - {id}, DropFromIndex(index, id, subs[id]))
  {
    var index' := DropFromIndex(index, id, subs[id]);
    forall t | t in index'
      ensures index'[t] != {} && forall c :: c in index'[t] ==> c in subs - {id} && t in subs[c]
    {
      if t !in subs[id] && id in index[t] {
        assert false;
      }
    }
    forall c, t | c in subs - {id} && t in subs[c]
      ensures t in index' && c in index'[t]
    {
      assert c in index[t] && c != id;
    }
  }

  /** Subscribing and unsubscribing a new client leaves the index exactly as it was. */
  lemma DropUndoesAdd(subs: map<ClientId, set<Topic>>, index: map<Topic, set<ClientId>>, id: ClientId,
                      topics: set<Topic>)
    requires IndexAgrees(subs, index) && id !in subs
    ensures DropFromIndex(AddToIndex(index, id, topics), id, topics) == index
  {
    AddKeepsAgreement(subs, index, id, topics);
    DropKeepsAgreement(subs[id := topics], AddToIndex(index, id, topics), id);
    assert subs[id := topics] - {id} == subs;
    IndexIsDetermined(subs, DropFromIndex(AddToIndex(index, id, topics), id, topics), index);
  }

  // ---------------------------------------------------------------------------
  // The hub invariant and how each change keeps it

  ghost function SubsOf(clients: map<ClientId, Client>): map<ClientId, set<Topic>>
  {
    map id | id in clients :: clients[id].topics
  }

  ghost function IndexOf(buckets: map<Topic, map<ClientId, Client>>): map<Topic, set<ClientId>>
  {
    map t | t in buckets :: buckets[t].Keys
  }

  ghost function OfIp(clients: map<ClientId, Client>, ip: string): set<ClientId>
  {
    set id | id in clients && clients[id].ip == ip
  }

  /** Everyone who ever connected is known by one id, and is open exactly while registered. */
  ghost predicate Registered(clients: map<ClientId, Client>, everyone: set<Client>, serial: nat)
    reads everyone`send, everyone`closed
  {
    && (forall id :: id in clients ==> clients[id] in everyone && clients[id].id == id)
    && (forall c :: c in everyone ==> c.id.serial < serial && |c.send| <= QUEUE)
    && (forall c, d :: c in everyone && d in everyone && c.id == d.id ==> c == d)
    && (forall c :: c in everyone ==> (c.closed <==> c.id !in clients))
  }

  /** The buckets hold the registered clients themselves. */
  ghost predicate PointsInto(buckets: map<Topic, map<ClientId, Client>>, clients: map<ClientId, Client>)
  {
    forall t, id :: t in buckets && id in buckets[t] ==> id in clients && buckets[t][id] == clients[id]
  }

  ghost predicate WithinCaps(clients: map<ClientId, Client>, maxConn: nat, maxConnPerIP: nat)
  {
    |clients| <= maxConn && forall ip :: |OfIp(clients, ip)| <= maxConnPerIP
  }

  /** The hub invariant: both indexes describe the same open clients, within the caps. */
  ghost predicate Consistent(clients: map<ClientId, Client>, buckets: map<Topic, map<ClientId, Client>>,
                             everyone: set<Client>, serial: nat, maxConn: nat, maxConnPerIP: nat)
    reads everyone`send, everyone`closed
  {
    && Registered(clients, everyone, serial)
    && PointsInto(buckets, clients)
    && IndexAgrees(SubsOf(clients), IndexOf(buckets))
    && WithinCaps(clients, maxConn, maxConnPerIP)
  }

  function Bucket(buckets: map<Topic, map<ClientId, Client>>, t: Topic): map<ClientId, Client>
  {
    if t in buckets then buckets[t] else map[]
  }

  /** `now` is `was` with c filed under each of `topics`. */
  ghost predicate Filed(was: map<Topic, map<ClientId, Client>>, now: map<Topic, map<ClientId, Client>>,
                        c: Client, topics: set<Topic>)
  {
    && now.Keys == was.Keys + topics
    && (forall t :: t in now ==>
          now[t] == if t in topics then Bucket(was, t)[c.id := c] else was[t])
  }

  lemma FileOne(was: map<Topic, map<ClientId, Client>>, mid: map<Topic, map<ClientId, Client>>,
                c: Client, done: set<Topic>, topic: Topic)
    requires Filed(was, mid, c, done) && topic !in done
    ensures Filed(was, mid[topic := Bucket(mid, topic)[c.id := c]], c, done + {topic})
  {
  }

  lemma FiledPoints(clients: map<ClientId, Client>, was: map<Topic, map<ClientId, Client>>,
                    now: map<Topic, map<ClientId, Client>>, c: Client)
    requires c.id !in clients && Filed(was, now, c, c.topics) && PointsInto(was, clients)
    ensures PointsInto(now, clients[c.id := c])
  {
    forall t, id | t in now && id in now[t]
      ensures id in clients[c.id := c] && now[t][id] == clients[c.id := c][id]
    {
      if id != c.id {
        assert t in was && id in was[t];
      }
    }
  }

  lemma FiledIndex(was: map<Topic, map<ClientId, Client>>, now: map<Topic, map<ClientId, Client>>, c: Client)
    requires Filed(was, now, c, c.topics)
    ensures IndexOf(now) == AddToIndex(IndexOf(was), c.id, c.topics)
  {
    forall t | t in now
      ensures IndexOf(now)[t] == AddToIndex(IndexOf(was), c.id, c.topics)[t]
    {
    }
    assert IndexOf(now).Keys == AddToIndex(IndexOf(was), c.id, c.topics).Keys;
  }

  lemma AgreeAfterAdding(clients: map<ClientId, Client>, was: map<Topic, map<ClientId, Client>>,
                         now: map<Topic, map<ClientId, Client>>, c: Client)
    requires c.id !in clients && Filed(was, now, c, c.topics)
    requires PointsInto(was, clients) && IndexAgrees(SubsOf(clients), IndexOf(was))
    ensures PointsInto(now, clients[c.id := c]) && IndexAgrees(SubsOf(clients[c.id := c]), IndexOf(now))
    ensures IndexOf(now) == AddToIndex(IndexOf(was), c.id, c.topics)
  {
    FiledPoints(clients, was, now, c);
    FiledIndex(was, now, c);
    AddKeepsAgreement(SubsOf(clients), IndexOf(was), c.id, c.topics);
    assert SubsOf(clients[c.id := c]) == SubsOf(clients)[c.id := c.topics];
  }

  lemma OfIpAfterAdding(clients: map<ClientId, Client>, c: Client, ip: string)
    requires c.id !in clients
    ensures OfIp(clients[c.id := c], ip) == if ip == c.ip then OfIp(clients, ip) + {c.id} else OfIp(clients, ip)
  {
    forall id
      ensures id in OfIp(clients[c.id := c], ip) <==> id in OfIp(clients, ip) || (id == c.id && ip == c.ip)
    {
    }
  }

  lemma CapsAfterAdding(clients: map<ClientId, Client>, c: Client, maxConn: nat, maxConnPerIP: nat)
    requires c.id !in clients && WithinCaps(clients, maxConn, maxConnPerIP)
    requires |clients| < maxConn && |OfIp(clients, c.ip)| < maxConnPerIP
    ensures WithinCaps(clients[c.id := c], maxConn, maxConnPerIP)
  {
    var after := clients[c.id := c];
    forall ip
      ensures |OfIp(after, ip)| <= maxConnPerIP
    {
      OfIpAfterAdding(clients, c, ip);
    }
  }

  lemma RegisteredAfterAdding(clients: map<ClientId, Client>, everyone: set<Client>, serial: nat, c: Client)
    requires Registered(clients, everyone, serial)
    requires c.id.serial == serial && !c.closed && c.send == []
    ensures c.id !in clients && Registered(clients[c.id := c], everyone + {c}, serial + 1)
  {
  }

  lemma ConsistentAfterAdding(clients: map<ClientId, Client>, was: map<Topic, map<ClientId, Client>>,
                              now: map<Topic, map<ClientId, Client>>, everyone: set<Client>, serial: nat,
                              maxConn: nat, maxConnPerIP: nat, c: Client)
    requires Consistent(clients, was, everyone, serial, maxConn, maxConnPerIP)
    requires c.id.serial == serial && !c.closed && c.send == []
    requires Filed(was, now, c, c.topics)
    requires |clients| < maxConn && |OfIp(clients, c.ip)| < maxConnPerIP
    ensures c.id !in clients
    ensures Consistent(clients[c.id := c], now, everyone + {c}, serial + 1, maxConn, maxConnPerIP)
    ensures IndexOf(now) == AddToIndex(IndexOf(was), c.id, c.topics)
  {
    RegisteredAfterAdding(clients, everyone, serial, c);
    AgreeAfterAdding(clients, was, now, c);
    CapsAfterAdding(clients, c, maxConn, maxConnPerIP);
  }

  /** `now` is `was` without id in the buckets of `topics`, emptied buckets removed. */
  ghost predicate Dropped(was: map<Topic, map<ClientId, Client>>, now: map<Topic, map<ClientId, Client>>,
                          id: ClientId, topics: set<Topic>)
  {
    && (forall t :: t in now <==> t in was && !(t in topics && was[t].Keys <= {id}))
    && (forall t :: t in now ==> now[t] == if t in topics then was[t] - {id} else was[t])
  }

  ghost function WithoutIn(buckets: map<Topic, map<ClientId, Client>>, topic: Topic, id: ClientId)
    : map<Topic, map<ClientId, Client>>
  {
    if topic !in buckets then buckets
    else if |buckets[topic] - {id}| == 0 then buckets - {topic}
    else buckets[topic := buckets[topic] - {id}]
  }

  lemma DropOne(was: map<Topic, map<ClientId, Client>>, mid: map<Topic, map<ClientId, Client>>,
                id: ClientId, done: set<Topic>, topic: Topic)
    requires Dropped(was, mid, id, done) && topic !in done
    ensures Dropped(was, WithoutIn(mid, topic, id), id, done + {topic})
  {
    if topic in mid {
      var m := mid[topic] - {id};
      assert m.Keys == mid[topic].Keys - {id};
      assert |m| == 0 <==> m.Keys == {};
    }
  }

  lemma DroppedIndex(was: map<Topic, map<ClientId, Client>>, now: map<Topic, map<ClientId, Client>>,
                     id: ClientId, topics: set<Topic>)
    requires Dropped(was, now, id, topics)
    ensures IndexOf(now) == DropFromIndex(IndexOf(was), id, topics)
  {
  }

  lemma BucketsStillPoint(clients: map<ClientId, Client>, was: map<Topic, map<ClientId, Client>>,
                          now: map<Topic, map<ClientId, Client>>, id: ClientId)
    requires id in clients && Dropped(was, now, id, clients[id].topics)
    requires PointsInto(was, clients) && IndexAgrees(SubsOf(clients - {id}), IndexOf(now))
    ensures PointsInto(now, clients - {id})
  {
    forall t, k | t in now && k in now[t]
      ensures k in clients - {id} && now[t][k] == clients[k]
    {
      assert k in IndexOf(now)[t];
      assert k in was[t];
    }
  }

  /** Both indexes still agree after one client has left both. */
  lemma AgreeAfterRemoval(clients: map<ClientId, Client>, was: map<Topic, map<ClientId, Client>>,
                          now: map<Topic, map<ClientId, Client>>, id: ClientId)
    requires id in clients && Dropped(was, now, id, clients[id].topics)
    requires PointsInto(was, clients) && IndexAgrees(SubsOf(clients), IndexOf(was))
    ensures PointsInto(now, clients - {id}) && IndexAgrees(SubsOf(clients - {id}), IndexOf(now))
    ensures IndexOf(now) == DropFromIndex(IndexOf(was), id, clients[id].topics)
  {
    DroppedIndex(was, now, id, clients[id].topics);
    DropKeepsAgreement(SubsOf(clients), IndexOf(was), id);
    assert SubsOf(clients - {id}) == SubsOf(clients) - {id};
    BucketsStillPoint(clients, was, now, id);
  }

  lemma CapsAfterRemoval(clients: map<ClientId, Client>, id: ClientId)
    ensures |clients - {id}| <= |clients|
    ensures forall ip :: |OfIp(clients - {id}, ip)| <= |OfIp(clients, ip)|
  {
    SubsetSize((clients - {id}).Keys, clients.Keys);
    forall ip
      ensures |OfIp(clients - {id}, ip)| <= |OfIp(clients, ip)|
    {
      SubsetSize(OfIp(clients - {id}, ip), OfIp(clients, ip));
    }
  }

  lemma ConsistentAfterRemoval(clients: map<ClientId, Client>, was: map<Topic, map<ClientId, Client>>,
                               now: map<Topic, map<ClientId, Client>>, everyone: set<Client>, serial: nat,
                               maxConn: nat, maxConnPerIP: nat, id: ClientId)
    requires id in clients && Dropped(was, now, id, clients[id].topics)
    requires forall k :: k in clients ==> clients[k] in everyone && clients[k].id == k
    requires forall c :: c in everyone ==> c.id.serial < serial && |c.send| <= QUEUE
    requires forall c, d :: c in everyone && d in everyone && c.id == d.id ==> c == d
    requires forall c :: c in everyone ==> (c.closed <==> c.id !in clients || c.id == id)
    requires PointsInto(was, clients) && IndexAgrees(SubsOf(clients), IndexOf(was))
               && WithinCaps(clients, maxConn, maxConnPerIP)
    ensures Consistent(clients - {id}, now, everyone, serial, maxConn, maxConnPerIP)
    ensures IndexOf(now) == DropFromIndex(IndexOf(was), id, clients[id].topics)
  {
    AgreeAfterRemoval(clients, was, now, id);
    CapsAfterRemoval(clients, id);
  }

  /** The registered clients after a message was offered to `targets`. */
  ghost function Survivors(clients: map<ClientId, Client>, queues: map<Client, seq<string>>,
                           targets: set<Client>): map<ClientId, Client>
  {
    map id | id in clients && !(clients[id] in targets && clients[id] in queues && |queues[clients[id]]| >= QUEUE) ::
      clients[id]
  }

  /** The queues then: one more message for every target that had room. */
  ghost function Offered(queues: map<Client, seq<string>>, targets: set<Client>, data: string): map<Client, seq<string>>
  {
    map c | c in queues :: queues[c] + if c in targets && |queues[c]| < QUEUE then [data] else []
  }

  lemma NobodyHandled(clients: map<ClientId, Client>, queues: map<Client, seq<string>>, data: string)
    ensures Survivors(clients, queues, {}) == clients && Offered(queues, {}, data) == queues
  {
    assert Survivors(clients, queues, {}) == clients;
    assert forall c :: c in queues ==> queues[c] + [] == queues[c];
    assert Offered(queues, {}, data) == queues;
  }

  lemma OneMoreHandled(clients: map<ClientId, Client>, queues: map<Client, seq<string>>, targets: set<Client>,
                       c: Client, data: string)
    requires forall id :: id in clients ==> clients[id].id == id
    requires c.id in clients && clients[c.id] == c && c in queues && c !in targets
    ensures var full, before := |queues[c]| >= QUEUE, Survivors(clients, queues, targets);
            && c.id in before
            && Survivors(clients, queues, targets + {c}) == if full then before - {c.id} else before
    ensures var full, before := |queues[c]| >= QUEUE, Offered(queues, targets, data);
            && before[c] == queues[c]
            && Offered(queues, targets + {c}, data) == if full then before else before[c := queues[c] + [data]]
  {
  }

  lemma {:induction false} SameSize(clients: map<ClientId, Client>, open: set<Client>)
    requires forall id :: id in clients ==> clients[id].id == id && clients[id] in open
    requires forall c :: c in open ==> c.id in clients && clients[c.id] == c
    ensures |clients| == |open|
    decreases |open|
  {
    if open == {} {
      assert clients.Keys == {};
    } else {
      var c :| c in open;
      SameSize(clients - {c.id}, open - {c});
      assert clients.Keys == (clients - {c.id}).Keys + {c.id};
    }
  }

  // ---------------------------------------------------------------------------
  // The hub

  /** What the select statement of one send comes to. */
  datatype Delivery = Sent | Full | Panicked

  datatype Subscription = TopicsRequired | TooManyConnections | TooManyForIp | Connected(c: Client)

  class Hub {
    const maxConn: nat
    const maxConnPerIP: nat
    const timeout: int
    var serial: nat
    var clients: map<ClientId, Client>
    var topicClients: map<Topic, map<ClientId, Client>>
    ghost var everyone: set<Client>  // every client ever connected

    ghost function Subs(): map<ClientId, set<Topic>>
      reads this`clients
    {
      SubsOf(clients)
    }

    ghost function Index(): map<Topic, set<ClientId>>
      reads this`topicClients
    {
      IndexOf(topicClients)
    }

    /** The messages waiting at everyone who ever connected. */
    ghost function Queues(): map<Client, seq<string>>
      reads this`everyone, everyone`send
    {
      map c | c in everyone :: c.send
    }

    /** When everyone who ever connected was last active. */
    ghost function Actives(): map<Client, int>
      reads this`everyone, everyone`active
    {
      map c | c in everyone :: c.active
    }

    ghost function Closed(): set<Client>
      reads this`everyone, everyone`closed
    {
      set c | c in everyone && c.closed
    }

    twostate lemma NoQueue()
      requires everyone == old(everyone)
      requires forall d :: d in everyone ==> d.send == old(d.send) && d.active == old(d.active)
      ensures Queues() == old(Queues()) && Actives() == old(Actives())
    {
    }

    /** Only one queue has changed. */
    twostate lemma OneQueue(c: Client)
      requires everyone == old(everyone) && c in everyone
      requires forall d :: d in everyone && d != c ==> d.send == old(d.send)
      ensures Queues() == old(Queues())[c := c.send]
    {
    }

    twostate lemma OneActive(c: Client)
      requires everyone == old(everyone) && c in everyone
      requires forall d :: d in everyone && d != c ==> d.active == old(d.active)
      ensures Actives() == old(Actives())[c := c.active]
    {
    }

    /** Only a client has been added. */
    twostate lemma OneMore(new c: Client)
      requires everyone == old(everyone) + {c} && c !in old(everyone)
      requires forall d :: d in old(everyone) ==> d.send == old(d.send) && d.active == old(d.active)
      ensures Queues() == old(Queues())[c := c.send] && Actives() == old(Actives())[c := c.active]
    {
    }

    ghost predicate Valid()
      reads this, everyone`send, everyone`closed
    {
      Consistent(clients, topicClients, everyone, serial, maxConn, maxConnPerIP)
    }

    constructor (maxConn: nat, maxConnPerIP: nat, timeout: int)
      ensures Valid() && clients == map[] && topicClients == map[] && everyone == {}
      ensures this.maxConn == maxConn && this.maxConnPerIP == maxConnPerIP && this.timeout == timeout
    {
      this.maxConn, this.maxConnPerIP, this.timeout := maxConn, maxConnPerIP, timeout;
      serial, clients, topicClients, everyone := 0, map[], map[], {};
    }

    /** The locked part of removeClient. */
    method RemoveClientLocked(id: ClientId)
      requires Valid()
      modifies this`clients, this`topicClients, everyone`closed
      ensures Valid()
      ensures clients == old(clients) - {id}
      ensures id !in old(clients) ==> topicClients == old(topicClients)
      ensures id in old(clients) ==> Index() == DropFromIndex(old(Index()), id, old(clients)[id].topics)
      ensures forall c :: c in everyone ==> (c.closed <==> old(c.closed) || c.id == id)
      ensures Queues() == old(Queues()) && Actives() == old(Actives())
    {
      if id in clients {
        Unregister(id, clients[id]);
      } else {
        assert clients == clients - {id};
      }
    }

    method Unregister(id: ClientId, c: Client)
      requires Valid() && id in clients && clients[id] == c
      modifies this`clients, this`topicClients, c`closed
      ensures Valid() && clients == old(clients) - {id}
      ensures Index() == DropFromIndex(old(Index()), id, c.topics)
      ensures c.closed && Queues() == old(Queues()) && Actives() == old(Actives())
    {
      CloseAndDrop(id, c);
      NoQueue();
    }

    /** The client is closed and leaves both indexes. */
    method CloseAndDrop(id: ClientId, c: Client)
      requires Valid() && id in clients && clients[id] == c
      modifies this`clients, this`topicClients, c`closed
      ensures Valid() && c.closed && clients == old(clients) - {id}
      ensures Index() == DropFromIndex(old(Index()), id, c.topics)
    {
      c.Close();
      clients := clients - {id};
      DropBuckets(id, c.topics);
      ConsistentAfterRemoval(old(clients), old(topicClients), topicClients, everyone, serial, maxConn, maxConnPerIP,
                             id);
    }

    /** The loop of removeClientLocked over the client's topics; an emptied bucket goes. */
    method DropBuckets(id: ClientId, topics: set<Topic>)
      modifies this`topicClients
      ensures Dropped(old(topicClients), topicClients, id, topics)
    {
      var todo := topics;
      ghost var done: set<Topic> := {};
      while todo != {}
        invariant todo !! done && forall t :: t in topics <==> t in todo || t in done
        invariant Dropped(old(topicClients), topicClients, id, done)
        decreases |todo|
      {
        var topic :| topic in todo;
        todo := todo - {topic};
        DropOne(old(topicClients), topicClients, id, done, topic);
        if topic in topicClients {
          var m := topicClients[topic] - {id};
          if |m| == 0 {
            topicClients := topicClients - {topic};
          } else {
            topicClients := topicClients[topic := m];
          }
        }
        done := done + {topic};
      }
      assert done == topics;
    }

    method CountIp(ip: string) returns (count: nat)
      ensures count == |OfIp(clients, ip)|
    {
      var todo := clients.Keys;
      ghost var found: set<ClientId> := {};
      count := 0;
      while todo != {}
        invariant todo <= clients.Keys
        invariant forall id :: id in found <==> id in clients && id !in todo && clients[id].ip == ip
        invariant count == |found|
        decreases |todo|
      {
        var id :| id in todo;
        todo := todo - {id};
        if clients[id].ip == ip {
          count := count + 1;
          found := found + {id};
        }
      }
      assert found == OfIp(clients, ip);
    }

    /** The loop of Subscribe that files the client under each topic. */
    method AddBuckets(c: Client, topics: set<Topic>)
      modifies this`topicClients
      ensures Filed(old(topicClients), topicClients, c, topics)
    {
      var todo := topics;
      ghost var done: set<Topic> := {};
      while todo != {}
        invariant todo !! done && forall t :: t in topics <==> t in todo || t in done
        invariant Filed(old(topicClients), topicClients, c, done)
        decreases |todo|
      {
        var topic :| topic in todo;
        todo := todo - {topic};
        var bucket: map<ClientId, Client> := map[];
        if topic in topicClients {
          bucket := topicClients[topic];
        }
        FileOne(old(topicClients), topicClients, c, done, topic);
        topicClients := topicClients[topic := bucket[c.id := c]];
        done := done + {topic};
      }
      assert done == topics;
    }

    method Register(c: Client)
      requires Valid() && c !in everyone && c.id.serial == serial && !c.closed && c.send == []
      requires |clients| < maxConn && |OfIp(clients, c.ip)| < maxConnPerIP
      modifies this`serial, this`clients, this`topicClients, this`everyone
      ensures Valid() && c.id !in old(clients)
      ensures clients == old(clients)[c.id := c] && everyone == old(everyone) + {c}
      ensures Index() == AddToIndex(old(Index()), c.id, c.topics)
    {
      ghost var was, buckets := clients, topicClients;
      serial := serial + 1;
      AddBuckets(c, c.topics);
      clients := clients[c.id := c];
      everyone := everyone + {c};
      ConsistentAfterAdding(was, buckets, topicClients, old(everyone), serial - 1, maxConn, maxConnPerIP, c);
    }

    method Connect(ip: string, topics: set<Topic>, nanos: int, now: int) returns (c: Client)
      requires Valid() && |clients| < maxConn && |OfIp(clients, ip)| < maxConnPerIP
      modifies this`serial, this`clients, this`topicClients, this`everyone
      ensures Valid() && fresh(c) && c.id !in old(clients)
      ensures c.ip == ip && c.topics == topics && c.send == [] && c.active == now
      ensures clients == old(clients)[c.id := c] && everyone == old(everyone) + {c}
      ensures Index() == AddToIndex(old(Index()), c.id, topics)
      ensures Queues() == old(Queues())[c := []] && Actives() == old(Actives())[c := now]
    {
      c := new Client(ClientId(nanos, serial), ip, topics, now);
      Register(c);
      OneMore(c);
    }

    /** The locked part of Subscribe: the two caps, then both indexes. */
    method Subscribe(ip: string, topicSet: seq<Topic>, nanos: int, now: int) returns (r: Subscription)
      requires Valid()
      modifies this`serial, this`clients, this`topicClients, this`everyone
      ensures Valid()
      ensures r.TopicsRequired? <==> topicSet == []
      ensures r.TooManyConnections? <==> topicSet != [] && |old(clients)| >= maxConn
      ensures r.TooManyForIp? <==>
                topicSet != [] && |old(clients)| < maxConn && |OfIp(old(clients), ip)| >= maxConnPerIP
      ensures !r.Connected? ==>
                && clients == old(clients) && topicClients == old(topicClients) && everyone == old(everyone)
                && Queues() == old(Queues()) && Actives() == old(Actives())
      ensures r.Connected? ==>
                && fresh(r.c) && r.c.id !in old(clients) && r.c.ip == ip && r.c.topics == (set t | t in topicSet)
                && clients == old(clients)[r.c.id := r.c] && everyone == old(everyone) + {r.c}
                && Queues() == old(Queues())[r.c := []] && Actives() == old(Actives())[r.c := now]
                && Index() == AddToIndex(old(Index()), r.c.id, set t | t in topicSet)
      ensures old(everyone) <= everyone && forall c :: c in everyone && c !in old(everyone) ==> fresh(c)
    {
      if topicSet == [] {
        return TopicsRequired;
      }
      if |clients| >= maxConn {
        return TooManyConnections;
      }
      var ipCount := CountIp(ip);
      if ipCount >= maxConnPerIP {
        return TooManyForIp;
      }
      assert Queues() == old(Queues()) && Actives() == old(Actives()) && Index() == old(Index());
      var c := Connect(ip, (set t | t in topicSet), nanos, now);
      r := Connected(c);
    }

    /** A heartbeat or a delivered message marks the client as active. */
    method Touch(id: ClientId, now: int)
      requires Valid()
      modifies everyone`active
      ensures Valid()
      ensures Actives() == if id in clients then old(Actives())[clients[id] := now] else old(Actives())
    {
      if id in clients {
        clients[id].active := now;
        OneActive(clients[id]);
      }
    }

    /** The idle-timeout sweep: exactly the clients silent for longer than the timeout go. */
    method Cleanup(now: int)
      requires Valid()
      modifies this`clients, this`topicClients, everyone`closed
      ensures Valid()
      ensures forall id :: id in clients <==> id in old(clients) && now - old(clients)[id].active <= timeout
      ensures forall id :: id in clients ==> clients[id] == old(clients)[id]
      ensures forall c :: c in everyone && old(c.closed) ==> c.closed
    {
      var todo := clients.Keys;
      while todo != {}
        invariant Valid()
        invariant todo <= clients.Keys <= old(clients).Keys
        invariant forall id :: id in old(clients) ==>
                    (id in clients <==> id in todo || now - old(clients)[id].active <= timeout)
        invariant forall id :: id in clients ==> clients[id] == old(clients)[id]
        invariant forall c :: c in everyone && old(c.closed) ==> c.closed
        decreases |todo|
      {
        var id :| id in todo;
        todo := todo - {id};
        assert clients[id] in everyone;
        if now - clients[id].active > timeout {
          RemoveClientLocked(id);
        }
      }
    }

    lemma BucketIsSubscribers(topic: Topic)
      requires Valid()
      ensures forall id :: id in clients ==>
                (topic in clients[id].topics <==> topic in topicClients && id in topicClients[topic])
      ensures topic in topicClients ==>
                forall id :: id in topicClients[topic] ==> id in clients && topicClients[topic][id] == clients[id]
    {
      forall id | id in clients
        ensures topic in clients[id].topics <==> topic in topicClients && id in topicClients[topic]
      {
        assert Subs()[id] == clients[id].topics;
        assert topic in topicClients ==> Index()[topic] == topicClients[topic].Keys;
      }
    }

    ghost function Subscribers(topic: Topic): set<Client>
      reads this`everyone, this`clients
    {
      set c | c in everyone && c.id in clients && topic in c.topics
    }

    /** A broadcast's section under the lock: who subscribes the topic at this moment. */
    method Snapshot(topic: Topic) returns (targets: set<Client>)
      requires Valid()
      ensures targets == Subscribers(topic)
    {
      BucketIsSubscribers(topic);
      targets := {};
      if topic in topicClients {
        targets := topicClients[topic].Values;
        forall c
          ensures c in targets <==> c in Subscribers(topic)
        {
          if c in Subscribers(topic) {
            assert clients[c.id] == c && topicClients[topic][c.id] == c;
          }
        }
      }
      assert targets == Subscribers(topic);
    }

    method Send(c: Client, data: string) returns (sent: bool)
      requires Valid() && c in everyone && !c.closed
      modifies c`send
      ensures Valid()
      ensures sent <==> |old(c.send)| < QUEUE
      ensures !sent ==> c.send == old(c.send)
      ensures Queues() == if sent then old(Queues())[c := old(c.send) + [data]] else old(Queues())
    {
      sent := c.TrySend(data);
      if sent {
        OneQueue(c);
      }
    }

    /** The select statement of one send of a broadcast, after the lock has been released: it panics
        exactly if the client has been removed since the snapshot. */
    method Offer(c: Client, data: string) returns (r: Delivery)
      requires Valid() && c in everyone
      modifies c`send
      ensures Valid()
      ensures r.Panicked? <==> c.id !in clients
      ensures r.Full? <==> c.id in clients && |old(c.send)| >= 64
      ensures Queues() == if r.Sent? then old(Queues())[c := old(c.send) + [data]] else old(Queues())
      ensures !r.Sent? ==> c.send == old(c.send)
    {
      if c.closed {
        return Panicked;
      }
      var sent := Send(c, data);
      r := if sent then Sent else Full;
    }

    /** removeClient, the locked section that follows a full queue; by then the client may have
        been removed, or its queue drained. */
    method Evict(c: Client)
      requires Valid() && c in everyone
      modifies this`clients, this`topicClients, everyone`closed
      ensures Valid() && c.closed && Queues() == old(Queues()) && Actives() == old(Actives())
      ensures clients == old(clients) - {c.id}
      ensures forall d :: d in everyone && old(d.closed) ==> d.closed
    {
      RemoveClientLocked(c.id);
    }

    method Take(c: Client) returns (msg: string)
      requires Valid() && c in everyone && c.send != []
      modifies c`send
      ensures Valid()
      ensures old(c.send) == [msg] + c.send && Queues() == old(Queues())[c := c.send]
    {
      msg := c.send[0];
      c.send := c.send[1..];
      OneQueue(c);
    }

    /** The client's own loop takes the oldest queued message, also from a closed channel, and marks
        the client active if it is still registered. */
    method Receive(c: Client, now: int) returns (msg: string)
      requires Valid() && c in everyone && c.send != []
      modifies c`send, c`active
      ensures Valid()
      ensures old(c.send) == [msg] + c.send && Queues() == old(Queues())[c := c.send]
      ensures Actives() == if c.id in clients then old(Actives())[c := now] else old(Actives())
    {
      msg := Take(c);
      assert Actives() == old(Actives());
      if c.id in clients {
        c.active := now;
        OneActive(c);
      }
    }

    /** One send and, if the queue was full, the removal, with nothing in between. */
    method OfferOrEvict(c: Client, data: string)
      requires Valid() && c in everyone && c.id in clients
      modifies this`clients, this`topicClients, c`send, everyone`closed
      ensures Valid()
      ensures clients == if |old(c.send)| >= QUEUE then old(clients) - {c.id} else old(clients)
      ensures Queues() == if |old(c.send)| < QUEUE then old(Queues())[c := old(c.send) + [data]] else old(Queues())
    {
      var r := Offer(c, data);
      assert !r.Panicked?;
      if r.Full? {
        Evict(c);
      }
    }

    /** Broadcast and BroadcastJSON when nothing comes between the snapshot and the sends: every
        subscriber with room gets the message once, the others are evicted, and no send panics. */
    method Broadcast(topic: Topic, data: string)
      requires Valid()
      modifies this`clients, this`topicClients, everyone`send, everyone`closed
      ensures Valid()
      ensures clients == Survivors(old(clients), old(Queues()), old(Subscribers(topic)))
      ensures Queues() == Offered(old(Queues()), old(Subscribers(topic)), data)
    {
      ghost var was, queues := clients, Queues();
      var targets := Snapshot(topic);
      OfferAll(targets, data, was, queues);
    }

    method OfferNext(c: Client, data: string, ghost was: map<ClientId, Client>, ghost queues: map<Client, seq<string>>,
                     ghost handled: set<Client>)
      requires Valid() && c in everyone && c.id in was && was[c.id] == c && c !in handled
      requires forall id :: id in was ==> was[id].id == id
      requires clients == Survivors(was, queues, handled) && Queues() == Offered(queues, handled, data) && c in queues
      modifies this`clients, this`topicClients, everyone`send, everyone`closed
      ensures Valid()
      ensures clients == Survivors(was, queues, handled + {c}) && Queues() == Offered(queues, handled + {c}, data)
    {
      OneMoreHandled(was, queues, handled, c, data);
      assert Queues()[c] == c.send;
      OfferOrEvict(c, data);
    }

    /** The loop over the snapshot. */
    method OfferAll(targets: set<Client>, data: string, ghost was: map<ClientId, Client>,
                    ghost queues: map<Client, seq<string>>)
      requires Valid() && clients == was && Queues() == queues
      requires forall c :: c in targets ==> c in everyone && c.id in clients
      modifies this`clients, this`topicClients, everyone`send, everyone`closed
      ensures Valid()
      ensures clients == Survivors(was, queues, targets) && Queues() == Offered(queues, targets, data)
    {
      var todo := targets;
      NobodyHandled(was, queues, data);
      assert targets - todo == {};
      while todo != {}
        invariant Valid()
        invariant todo <= targets
        invariant clients == Survivors(was, queues, targets - todo) && Queues() == Offered(queues, targets - todo, data)
        decreases todo
      {
        var c :| c in todo;
        OneLess(targets, todo, c);
        OfferNext(c, data, was, queues, targets - todo);
        todo := todo - {c};
      }
      assert targets - todo == targets;
    }

    /** Connected clients, and topics with at least one subscriber. */
    method Stats() returns (connections: nat, topics: nat)
      requires Valid()
      ensures connections == |set c | c in everyone && !c.closed|
      ensures topics == |Index()|
      ensures forall t :: t in Index() <==> exists c :: c in everyone && !c.closed && t in c.topics
    {
      connections, topics := |clients|, |topicClients|;
      SameSize(clients, set c | c in everyone && !c.closed);
      assert Index().Keys == topicClients.Keys;
      forall t
        ensures t in Index() <==> exists c :: c in everyone && !c.closed && t in c.topics
      {
        if t in Index() {
          var id :| id in Index()[t];
          assert clients[id] in everyone && t in clients[id].topics;
        }
        if c :| c in everyone && !c.closed && t in c.topics {
          assert c.id in clients && clients[c.id] == c;
          assert t in Subs()[c.id];
        }
      }
    }
  }

  // ---------------------------------------------------------------------------
  // Accounts of a run

  /** What a section or send did, as far as queues are concerned. */
  datatype Happening =
    | Quiet
    | Took(c: Client, msg: string)
    | Snapped(targets: set<Client>, data: string)
    | Offering(c: Client, data: string, outcome: Delivery)
    | Evicting(c: Client)

  /** Sends that are still to come, clients that were found full and are still to be removed, and the
      clients whose own loop is running. */
  datatype Flight = Flight(pending: multiset<(Client, string)>, evicting: multiset<Client>, loops: set<Client>)

  function Pairs(targets: set<Client>, data: string): multiset<(Client, string)>
  {
    multiset(set c | c in targets :: (c, data))
  }

  /** A snapshot starts one send to each of its targets, of its own message. */
  lemma OneSendEach(targets: set<Client>, data: string, c: Client, other: string)
    ensures Pairs(targets, data)[(c, other)] == if c in targets && other == data then 1 else 0
  {
    var sends := set d | d in targets :: (d, data);
    assert (c, other) in sends <==> c in targets && other == data;
  }

  /** All sends that snapshots have started. */
  ghost function Promised(log: seq<Happening>): multiset<(Client, string)>
  {
    if log == [] then
      multiset{}
    else
      var h := log[|log| - 1];
      Promised(log[..|log| - 1]) + if h.Snapped? then Pairs(h.targets, h.data) else multiset{}
  }

  /** All sends that have come to an end. */
  ghost function Offers(log: seq<Happening>): multiset<(Client, string)>
  {
    if log == [] then
      multiset{}
    else
      var h := log[|log| - 1];
      Offers(log[..|log| - 1]) + if h.Offering? then multiset{(h.c, h.data)} else multiset{}
  }

  /** The clients found full, and the removals that followed. */
  ghost function Fulls(log: seq<Happening>): multiset<Client>
  {
    if log == [] then
      multiset{}
    else
      var h := log[|log| - 1];
      Fulls(log[..|log| - 1]) + if h.Offering? && h.outcome.Full? then multiset{h.c} else multiset{}
  }

  ghost function Evictions(log: seq<Happening>): multiset<Client>
  {
    if log == [] then
      multiset{}
    else
      var h := log[|log| - 1];
      Evictions(log[..|log| - 1]) + if h.Evicting? then multiset{h.c} else multiset{}
  }

  /** What a happening takes from the client's queue, and what it appends. */
  function Less(h: Happening, c: Client): seq<string>
  {
    if h.Took? && h.c == c then [h.msg] else []
  }

  function More(h: Happening, c: Client): seq<string>
  {
    if h.Offering? && h.c == c && h.outcome.Sent? then [h.data] else []
  }

  /** The messages appended to the client's queue, in the order of the sends. */
  ghost function Appended(log: seq<Happening>, c: Client): seq<string>
  {
    if log == [] then
      []
    else
      Appended(log[..|log| - 1], c) + More(log[|log| - 1], c)
  }

  /** The messages that the client has taken, in order. */
  ghost function TakenBy(log: seq<Happening>, c: Client): seq<string>
  {
    if log == [] then
      []
    else
      TakenBy(log[..|log| - 1], c) + Less(log[|log| - 1], c)
  }

  function QueueOf(queues: map<Client, seq<string>>, c: Client): seq<string>
  {
    if c in queues then queues[c] else []
  }

  /** Only a send or removal that is under way can happen. */
  predicate Applies(f: Flight, h: Happening)
  {
    (h.Offering? ==> (h.c, h.data) in f.pending) && (h.Evicting? ==> h.c in f.evicting)
  }

  /** The effect of a happening on the sends and removals under way. */
  function FlightAfter(f: Flight, h: Happening): Flight
  {
    match h
    case Snapped(targets, data) => f.(pending := f.pending + Pairs(targets, data))
    case Offering(c, data, outcome) =>
      f.(pending := f.pending - multiset{(c, data)},
         evicting := f.evicting + if outcome.Full? then multiset{c} else multiset{})
    case Evicting(c) => f.(evicting := f.evicting - multiset{c})
    case _ => f
  }

  /** Its effect on the queues, which are empty for new clients. */
  ghost predicate Flows(q: map<Client, seq<string>>, h: Happening, q': map<Client, seq<string>>)
  {
    && q.Keys <= q'.Keys
    && (h.Took? || h.Offering? ==> h.c in q)
    && forall c :: c in q' ==> QueueOf(q, c) + More(h, c) == Less(h, c) + q'[c]
  }

  /** Every send that was started is under way or has ended once, and every full queue is followed by
      one removal. */
  ghost predicate SendsBalance(log: seq<Happening>, f: Flight)
  {
    Promised(log) == f.pending + Offers(log) && Fulls(log) == f.evicting + Evictions(log)
  }

  ghost predicate MentionsOnly(log: seq<Happening>, known: set<Client>)
  {
    forall k :: 0 <= k < |log| && (log[k].Took? || log[k].Offering?) ==> log[k].c in known
  }

  /** Every queue is what was there and was appended, less what was taken. */
  ghost predicate QueuesBalance(start: map<Client, seq<string>>, log: seq<Happening>, q: map<Client, seq<string>>)
  {
    && start.Keys <= q.Keys && MentionsOnly(log, q.Keys)
    && forall c :: c in q ==> QueueOf(start, c) + Appended(log, c) == TakenBy(log, c) + q[c]
  }

  lemma {:induction false} Unmentioned(log: seq<Happening>, known: set<Client>, c: Client)
    requires MentionsOnly(log, known) && c !in known
    ensures Appended(log, c) == [] && TakenBy(log, c) == []
  {
    if log != [] {
      Unmentioned(log[..|log| - 1], known, c);
    }
  }

  lemma PromisesOneMore(log: seq<Happening>, f: Flight, h: Happening)
    requires Promised(log) == f.pending + Offers(log) && Applies(f, h)
    ensures Promised(log + [h]) == FlightAfter(f, h).pending + Offers(log + [h])
  {
    assert (log + [h])[..|log|] == log;
  }

  lemma FullsOneMore(log: seq<Happening>, f: Flight, h: Happening)
    requires Fulls(log) == f.evicting + Evictions(log) && Applies(f, h)
    ensures Fulls(log + [h]) == FlightAfter(f, h).evicting + Evictions(log + [h])
  {
    assert (log + [h])[..|log|] == log;
  }

  lemma Rebalance(start: seq<string>, appended: seq<string>, taken: seq<string>, queue: seq<string>,
                  more: seq<string>, less: seq<string>, queue': seq<string>)
    requires start + appended == taken + queue && queue + more == less + queue'
    ensures start + (appended + more) == (taken + less) + queue'
  {
    assert start + (appended + more) == (start + appended) + more;
    assert (taken + queue) + more == taken + (queue + more);
    assert taken + (less + queue') == (taken + less) + queue';
  }

  lemma QueueOneMore(start: map<Client, seq<string>>, log: seq<Happening>, q: map<Client, seq<string>>,
                     h: Happening, q': map<Client, seq<string>>, c: Client)
    requires QueuesBalance(start, log, q) && Flows(q, h, q') && c in q'
    ensures QueueOf(start, c) + Appended(log + [h], c) == TakenBy(log + [h], c) + q'[c]
  {
    assert (log + [h])[..|log|] == log;
    if c !in q {
      Unmentioned(log, q.Keys, c);
    }
    Rebalance(QueueOf(start, c), Appended(log, c), TakenBy(log, c), QueueOf(q, c), More(h, c), Less(h, c), q'[c]);
  }

  lemma QueuesOneMore(start: map<Client, seq<string>>, log: seq<Happening>, q: map<Client, seq<string>>,
                      h: Happening, q': map<Client, seq<string>>)
    requires QueuesBalance(start, log, q) && Flows(q, h, q')
    ensures QueuesBalance(start, log + [h], q')
  {
    forall c | c in q'
      ensures QueueOf(start, c) + Appended(log + [h], c) == TakenBy(log + [h], c) + q'[c]
    {
      QueueOneMore(start, log, q, h, q', c);
    }
  }

  /** A hub and the sends under way, between two sections. */
  datatype Book = Book(clients: map<ClientId, Client>, q: map<Client, seq<string>>, active: map<Client, int>,
                       closed: set<Client>, f: Flight)

  datatype Limits = Limits(maxConn: nat, maxConnPerIP: nat, timeout: int)

  ghost predicate Turns(b: Book, h: Happening, b': Book)
  {
    && Applies(b.f, h) && Flows(b.q, h, b'.q)
    && b'.f.pending == FlightAfter(b.f, h).pending && b'.f.evicting == FlightAfter(b.f, h).evicting
  }

  ghost predicate Booked(books: seq<Book>, log: seq<Happening>)
  {
    |books| == |log| + 1 && forall k :: 0 <= k < |log| ==> Turns(books[k], log[k], books[k + 1])
  }

  lemma NothingYet(start: map<Client, seq<string>>, f: Flight)
    requires f.pending == multiset{} && f.evicting == multiset{}
    ensures SendsBalance([], f) && QueuesBalance(start, [], start)
  {
    forall c | c in start
      ensures QueueOf(start, c) + Appended([], c) == TakenBy([], c) + start[c]
    {
      assert start[c] + [] == [] + start[c];
    }
  }

  /** The accounts of a run. */
  lemma {:induction false} BooksBalance(books: seq<Book>, log: seq<Happening>)
    requires Booked(books, log) && books[0].f.pending == multiset{} && books[0].f.evicting == multiset{}
    ensures SendsBalance(log, books[|log|].f) && QueuesBalance(books[0].q, log, books[|log|].q)
    decreases |log|
  {
    if log == [] {
      NothingYet(books[0].q, books[0].f);
    } else {
      var n := |log| - 1;
      BooksBalance(books[..n + 1], log[..n]);
      assert Turns(books[n], log[n], books[n + 1]);
      PromisesOneMore(log[..n], books[n].f, log[n]);
      FullsOneMore(log[..n], books[n].f, log[n]);
      QueuesOneMore(books[0].q, log[..n], books[n].q, log[n], books[n + 1].q);
      assert log == log[..n] + [log[n]];
    }
  }

  // ---------------------------------------------------------------------------
  // Interleavings

  datatype Section =
    | SubscribeSection(ip: string, topicSet: seq<Topic>, nanos: int, now: int)
    | RemoveSection(id: ClientId)
    | TouchSection(id: ClientId, now: int)
    | CleanupSection(now: int)
    | ReceiveSection(c: Client, now: int)
    | SnapshotSection(topic: Topic, data: string)
    | OfferSection(c: Client, data: string)
    | EvictSection(c: Client)

  /** Nothing but the registrations, the queues, the times and the flight changes as given. */
  ghost predicate Becomes(b': Book, clients: map<ClientId, Client>, q: map<Client, seq<string>>,
                          active: map<Client, int>, f: Flight)
  {
    && b'.clients == clients && b'.q == q && b'.active == active && b'.f == f
    && b'.closed == set c | c in q && c.id !in clients
  }

  ghost predicate Stays(b: Book, e: Happening, b': Book)
  {
    e.Quiet? && Becomes(b', b.clients, b.q, b.active, b.f)
  }

  ghost predicate Refused(l: Limits, b: Book, ip: string, topicSet: seq<Topic>)
  {
    topicSet == [] || |b.clients| >= l.maxConn || |OfIp(b.clients, ip)| >= l.maxConnPerIP
  }

  /** The new client c is registered with an empty queue, and its own loop starts. */
  ghost predicate Joins(b: Book, c: Client, ip: string, topicSet: seq<Topic>, now: int, b': Book)
  {
    && c !in b.q && c.id !in b.clients && c.ip == ip && c.topics == (set t | t in topicSet)
    && Becomes(b', b.clients[c.id := c], b.q[c := []], b.active[c := now], b.f.(loops := b.f.loops + {c}))
  }

  ghost predicate DoesSubscribe(l: Limits, b: Book, ip: string, topicSet: seq<Topic>, now: int, e: Happening, b': Book)
  {
    if Refused(l, b, ip, topicSet) then Stays(b, e, b')
    else e.Quiet? && exists c :: c in b'.q && Joins(b, c, ip, topicSet, now, b')
  }

  ghost predicate DoesTouch(b: Book, id: ClientId, now: int, e: Happening, b': Book)
  {
    e.Quiet? &&
    Becomes(b', b.clients, b.q, if id in b.clients then b.active[b.clients[id] := now] else b.active, b.f)
  }

  /** The clients that were not silent for longer than the timeout. */
  ghost function Lively(l: Limits, b: Book, now: int): map<ClientId, Client>
  {
    map id | id in b.clients && b.clients[id] in b.active && now - b.active[b.clients[id]] <= l.timeout :: b.clients[id]
  }

  ghost predicate DoesReceive(b: Book, c: Client, now: int, e: Happening, b': Book)
  {
    if c in b.f.loops && QueueOf(b.q, c) != [] then
      && e == Took(c, QueueOf(b.q, c)[0])
      && Becomes(b', b.clients, b.q[c := QueueOf(b.q, c)[1..]],
                 if c.id in b.clients then b.active[c := now] else b.active, b.f)
    else
      Stays(b, e, b')
  }

  ghost predicate DoesSnapshot(b: Book, topic: Topic, data: string, e: Happening, b': Book)
  {
    var targets := set c | c in b.q && c.id in b.clients && topic in c.topics;
    e == Snapped(targets, data) && Becomes(b', b.clients, b.q, b.active, FlightAfter(b.f, e))
  }

  /** What a send meets: no registered client, a queue of 64 messages, or room. */
  ghost function Outcome(b: Book, c: Client): Delivery
  {
    if c.id !in b.clients then Panicked else if |QueueOf(b.q, c)| >= 64 then Full else Sent
  }

  ghost predicate DoesOffer(b: Book, c: Client, data: string, e: Happening, b': Book)
  {
    if (c, data) in b.f.pending then
      && e == Offering(c, data, Outcome(b, c))
      && Becomes(b', b.clients, if Outcome(b, c).Sent? then b.q[c := QueueOf(b.q, c) + [data]] else b.q, b.active,
                 FlightAfter(b.f, e))
    else
      Stays(b, e, b')
  }

  ghost predicate DoesEvict(b: Book, c: Client, e: Happening, b': Book)
  {
    if c in b.f.evicting then
      e == Evicting(c) && Becomes(b', b.clients - {c.id}, b.q, b.active, FlightAfter(b.f, e))
    else
      Stays(b, e, b')
  }

  /** What each section does, and nothing else. */
  ghost predicate Does(l: Limits, b: Book, section: Section, e: Happening, b': Book)
  {
    match section
    case SubscribeSection(ip, topicSet, _, now) => DoesSubscribe(l, b, ip, topicSet, now, e, b')
    case RemoveSection(id) => e.Quiet? && Becomes(b', b.clients - {id}, b.q, b.active, b.f)
    case TouchSection(id, now) => DoesTouch(b, id, now, e, b')
    case CleanupSection(now) => e.Quiet? && Becomes(b', Lively(l, b, now), b.q, b.active, b.f)
    case ReceiveSection(c, now) => DoesReceive(b, c, now, e, b')
    case SnapshotSection(topic, data) => DoesSnapshot(b, topic, data, e, b')
    case OfferSection(c, data) => DoesOffer(b, c, data, e, b')
    case EvictSection(c) => DoesEvict(b, c, e, b')
  }

  /** The sections of a run, one after the other. */
  ghost predicate Follows(l: Limits, books: seq<Book>, sections: seq<Section>, log: seq<Happening>)
  {
    |books| == |log| + 1 && |log| <= |sections| &&
    forall k :: 0 <= k < |log| ==> Does(l, books[k], sections[k], log[k], books[k + 1])
  }

  lemma FollowsOneMore(l: Limits, books: seq<Book>, sections: seq<Section>, log: seq<Happening>, e: Happening, b: Book)
    requires Follows(l, books, sections, log) && |log| < |sections|
    requires Does(l, books[|log|], sections[|log|], e, b)
    ensures Follows(l, books + [b], sections, log + [e])
  {
  }

  /** The clients that sends and removals under way are meant for have connected. */
  ghost predicate Known(f: Flight, everyone: set<Client>)
  {
    && (forall x :: x in f.pending ==> x.0 in everyone)
    && (forall c :: c in f.evicting ==> c in everyone)
    && f.loops <= everyone
  }

  lemma NoFlow(q: map<Client, seq<string>>, h: Happening)
    requires !h.Took? && !h.Offering?
    ensures Flows(q, h, q)
  {
    assert forall c :: c in q ==> q[c] + [] == [] + q[c];
  }

  /** A section that moves nothing under way. */
  lemma StillTurns(b: Book, e: Happening, b': Book)
    requires e.Quiet? && b'.q == b.q && b'.f == b.f && Known(b.f, b.q.Keys)
    ensures Turns(b, e, b') && Known(b'.f, b'.q.Keys)
  {
    NoFlow(b.q, Quiet);
  }

  lemma SubscribeTurns(l: Limits, b: Book, ip: string, topicSet: seq<Topic>, now: int, e: Happening, b': Book)
    requires DoesSubscribe(l, b, ip, topicSet, now, e, b') && Known(b.f, b.q.Keys)
    ensures Turns(b, e, b') && Known(b'.f, b'.q.Keys)
  {
    NoFlow(b.q, Quiet);
    if !Refused(l, b, ip, topicSet) {
      var c :| c in b'.q && Joins(b, c, ip, topicSet, now, b');
    }
  }

  lemma ReceiveTurns(b: Book, c: Client, now: int, e: Happening, b': Book)
    requires DoesReceive(b, c, now, e, b') && Known(b.f, b.q.Keys)
    ensures Turns(b, e, b') && Known(b'.f, b'.q.Keys)
  {
    NoFlow(b.q, Quiet);
    if e.Took? {
      assert c in b.q && b.q[c] + [] == [e.msg] + b'.q[c];
    }
  }

  lemma SnapshotTurns(b: Book, topic: Topic, data: string, e: Happening, b': Book)
    requires DoesSnapshot(b, topic, data, e, b') && Known(b.f, b.q.Keys)
    ensures Turns(b, e, b') && Known(b'.f, b'.q.Keys)
  {
    NoFlow(b.q, e);
  }

  lemma OfferTurns(b: Book, c: Client, data: string, e: Happening, b': Book)
    requires DoesOffer(b, c, data, e, b') && Known(b.f, b.q.Keys)
    ensures Turns(b, e, b') && Known(b'.f, b'.q.Keys)
  {
    NoFlow(b.q, Quiet);
    if e.Offering? && e.outcome.Sent? {
      assert b.q[c] + [data] == [] + b'.q[c];
    }
  }

  lemma EvictTurns(b: Book, c: Client, e: Happening, b': Book)
    requires DoesEvict(b, c, e, b') && Known(b.f, b.q.Keys)
    ensures Turns(b, e, b') && Known(b'.f, b'.q.Keys)
  {
    NoFlow(b.q, e);
  }

  /** A section moves the flight and the queues as its happening says. */
  lemma SectionTurns(l: Limits, b: Book, section: Section, e: Happening, b': Book)
    requires Does(l, b, section, e, b') && Known(b.f, b.q.Keys)
    ensures Turns(b, e, b') && Known(b'.f, b'.q.Keys)
  {
    match section
    case SubscribeSection(ip, topicSet, _, now) => SubscribeTurns(l, b, ip, topicSet, now, e, b');
    case RemoveSection(_) => StillTurns(b, e, b');
    case TouchSection(_, _) => StillTurns(b, e, b');
    case CleanupSection(_) => StillTurns(b, e, b');
    case ReceiveSection(c, now) => ReceiveTurns(b, c, now, e, b');
    case SnapshotSection(topic, data) => SnapshotTurns(b, topic, data, e, b');
    case OfferSection(c, data) => OfferTurns(b, c, data, e, b');
    case EvictSection(c) => EvictTurns(b, c, e, b');
  }

  lemma {:induction false} KnownAt(l: Limits, books: seq<Book>, sections: seq<Section>, log: seq<Happening>, k: nat)
    requires Follows(l, books, sections, log) && Known(books[0].f, books[0].q.Keys) && k <= |log|
    ensures Known(books[k].f, books[k].q.Keys)
  {
    if k > 0 {
      KnownAt(l, books, sections, log, k - 1);
      assert Does(l, books[k - 1], sections[k - 1], log[k - 1], books[k - 1 + 1]);
      SectionTurns(l, books[k - 1], sections[k - 1], log[k - 1], books[k]);
    }
  }

  lemma RunTurns(l: Limits, books: seq<Book>, sections: seq<Section>, log: seq<Happening>)
    requires Follows(l, books, sections, log) && Known(books[0].f, books[0].q.Keys)
    ensures Booked(books, log)
  {
    forall k | 0 <= k < |log|
      ensures Turns(books[k], log[k], books[k + 1])
    {
      KnownAt(l, books, sections, log, k);
      SectionTurns(l, books[k], sections[k], log[k], books[k + 1]);
    }
  }

  // ---------------------------------------------------------------------------
  // Running the sections

  ghost function BookOf(h: Hub, f: Flight): Book
    reads h`clients, h`everyone, h.everyone`send, h.everyone`active, h.everyone`closed
  {
    Book(h.clients, h.Queues(), h.Actives(), h.Closed(), f)
  }

  ghost function LimitsOf(h: Hub): Limits
  {
    Limits(h.maxConn, h.maxConnPerIP, h.timeout)
  }

  lemma ClosedAreGone(h: Hub)
    requires h.Valid()
    ensures h.Closed() == set c | c in h.Queues() && c.id !in h.clients
  {
  }

  lemma Joined(l: Limits, b: Book, c: Client, ip: string, topicSet: seq<Topic>, now: int, b': Book)
    requires !Refused(l, b, ip, topicSet) && Joins(b, c, ip, topicSet, now, b')
    ensures DoesSubscribe(l, b, ip, topicSet, now, Quiet, b')
  {
    assert c in b'.q;
  }

  method RunSubscribe(h: Hub, ip: string, topicSet: seq<Topic>, nanos: int, now: int, f: Flight) returns (f': Flight)
    requires h.Valid()
    modifies h
    ensures h.Valid() && old(h.everyone) <= h.everyone
    ensures forall c :: c in h.everyone && c !in old(h.everyone) ==> fresh(c)
    ensures DoesSubscribe(LimitsOf(h), old(BookOf(h, f)), ip, topicSet, now, Quiet, BookOf(h, f'))
  {
    ghost var b := BookOf(h, f);
    f' := f;
    var s := h.Subscribe(ip, topicSet, nanos, now);
    ClosedAreGone(h);
    if s.Connected? {
      f' := f.(loops := f.loops + {s.c});
      Joined(LimitsOf(h), b, s.c, ip, topicSet, now, BookOf(h, f'));
    }
  }

  method RunRemove(h: Hub, id: ClientId, f: Flight)
    requires h.Valid()
    modifies h`clients, h`topicClients, h.everyone`closed
    ensures h.Valid() && Becomes(BookOf(h, f), old(h.clients) - {id}, old(h.Queues()), old(h.Actives()), f)
  {
    ghost var b := BookOf(h, f);
    h.RemoveClientLocked(id);
    RestStands(h, b, f);
  }

  method RunTouch(h: Hub, id: ClientId, now: int, f: Flight)
    requires h.Valid()
    modifies h.everyone`active
    ensures h.Valid() && DoesTouch(old(BookOf(h, f)), id, now, Quiet, BookOf(h, f))
  {
    h.Touch(id, now);
    ClosedAreGone(h);
  }

  /** The book of a hub whose queues and times are as before. */
  lemma RestStands(h: Hub, b: Book, f: Flight)
    requires h.Valid() && b.q.Keys == h.everyone && b.active.Keys == h.everyone
    requires forall c :: c in h.everyone ==> c.send == b.q[c] && c.active == b.active[c]
    ensures Becomes(BookOf(h, f), h.clients, b.q, b.active, f)
  {
    ClosedAreGone(h);
    assert h.Queues() == b.q && h.Actives() == b.active;
  }

  lemma LivelyOnes(l: Limits, b: Book, now: int, rest: map<ClientId, Client>)
    requires forall id :: id in b.clients ==> b.clients[id] in b.active
    requires forall id :: id in rest <==> id in b.clients && now - b.active[b.clients[id]] <= l.timeout
    requires forall id :: id in rest ==> rest[id] == b.clients[id]
    ensures rest == Lively(l, b, now)
  {
  }

  method RunCleanup(h: Hub, now: int, f: Flight)
    requires h.Valid()
    modifies h`clients, h`topicClients, h.everyone`closed
    ensures h.Valid()
    ensures Becomes(BookOf(h, f), Lively(LimitsOf(h), old(BookOf(h, f)), now), old(h.Queues()), old(h.Actives()), f)
  {
    ghost var b := BookOf(h, f);
    h.Cleanup(now);
    RestStands(h, b, f);
    LivelyOnes(LimitsOf(h), b, now, h.clients);
  }

  method RunReceive(h: Hub, c: Client, now: int, f: Flight) returns (e: Happening)
    requires h.Valid() && Known(f, h.everyone)
    modifies h.everyone`send, h.everyone`active
    ensures h.Valid() && DoesReceive(old(BookOf(h, f)), c, now, e, BookOf(h, f))
  {
    e := Quiet;
    ClosedAreGone(h);
    if c in f.loops && c.send != [] {
      var msg := h.Receive(c, now);
      e := Took(c, msg);
      ClosedAreGone(h);
    }
  }

  method RunSnapshot(h: Hub, topic: Topic, data: string, f: Flight) returns (e: Happening, f': Flight)
    requires h.Valid()
    ensures h.Valid() && DoesSnapshot(old(BookOf(h, f)), topic, data, e, BookOf(h, f'))
  {
    var targets := h.Snapshot(topic);
    e := Snapped(targets, data);
    f' := FlightAfter(f, e);
    ClosedAreGone(h);
  }

  method RunOffer(h: Hub, c: Client, data: string, f: Flight) returns (e: Happening, f': Flight)
    requires h.Valid() && Known(f, h.everyone)
    modifies h.everyone`send
    ensures h.Valid() && DoesOffer(old(BookOf(h, f)), c, data, e, BookOf(h, f'))
  {
    e, f' := Quiet, f;
    ClosedAreGone(h);
    if (c, data) in f.pending {
      var r := h.Offer(c, data);
      e := Offering(c, data, r);
      f' := FlightAfter(f, e);
      ClosedAreGone(h);
    }
  }

  method RunEvict(h: Hub, c: Client, f: Flight) returns (e: Happening, f': Flight)
    requires h.Valid() && Known(f, h.everyone)
    modifies h`clients, h`topicClients, h.everyone`closed
    ensures h.Valid() && DoesEvict(old(BookOf(h, f)), c, e, BookOf(h, f'))
  {
    e, f' := Quiet, f;
    ClosedAreGone(h);
    if c in f.evicting {
      h.Evict(c);
      e := Evicting(c);
      f' := FlightAfter(f, e);
      ClosedAreGone(h);
    }
  }

  /** The sections that lie wholly under the lock and send nothing. */
  method RunLocked(h: Hub, section: Section, f: Flight) returns (f': Flight)
    requires h.Valid()
    requires section.SubscribeSection? || section.RemoveSection? || section.TouchSection? || section.CleanupSection?
    modifies h, h.everyone`active, h.everyone`closed
    ensures h.Valid() && old(h.everyone) <= h.everyone
    ensures forall c :: c in h.everyone && c !in old(h.everyone) ==> fresh(c)
    ensures Does(LimitsOf(h), old(BookOf(h, f)), section, Quiet, BookOf(h, f'))
  {
    f' := f;
    match section {
      case SubscribeSection(ip, topicSet, nanos, now) =>
        f' := RunSubscribe(h, ip, topicSet, nanos, now, f);
      case RemoveSection(id) =>
        RunRemove(h, id, f);
      case TouchSection(id, now) =>
        RunTouch(h, id, now, f);
      case CleanupSection(now) =>
        RunCleanup(h, now, f);
    }
  }

  /** The steps of broadcasts and of the clients' own loops; one that does not apply does nothing. */
  method RunSend(h: Hub, section: Section, f: Flight) returns (e: Happening, f': Flight)
    requires h.Valid() && Known(f, h.everyone)
    requires section.ReceiveSection? || section.SnapshotSection? || section.OfferSection? || section.EvictSection?
    modifies h`clients, h`topicClients, h.everyone`send, h.everyone`active, h.everyone`closed
    ensures h.Valid() && Does(LimitsOf(h), old(BookOf(h, f)), section, e, BookOf(h, f'))
  {
    match section {
      case ReceiveSection(c, now) =>
        e := RunReceive(h, c, now, f);
        f' := f;
      case SnapshotSection(topic, data) =>
        e, f' := RunSnapshot(h, topic, data, f);
      case OfferSection(c, data) =>
        e, f' := RunOffer(h, c, data, f);
      case EvictSection(c) =>
        e, f' := RunEvict(h, c, f);
    }
  }

  /** One section or one send. */
  method RunSection(h: Hub, section: Section, f: Flight) returns (e: Happening, f': Flight)
    requires h.Valid() && Known(f, h.everyone)
    modifies h, h.everyone
    ensures h.Valid() && old(h.everyone) <= h.everyone
    ensures forall c :: c in h.everyone && c !in old(h.everyone) ==> fresh(c)
    ensures Does(LimitsOf(h), old(BookOf(h, f)), section, e, BookOf(h, f'))
  {
    if section.SubscribeSection? || section.RemoveSection? || section.TouchSection? || section.CleanupSection? {
      e := Quiet;
      f' := RunLocked(h, section, f);
    } else {
      e, f' := RunSend(h, section, f);
    }
  }

  /** Any interleaving of the locked sections and of the sends of broadcasts under way: every section
      does what it should, the hub stays consistent, and the accounts of sends and queues balance. */
  method Interleave(h: Hub, sections: seq<Section>) returns (log: seq<Happening>, f: Flight, ghost books: seq<Book>)
    requires h.Valid()
    modifies h, h.everyone
    ensures h.Valid() && old(h.everyone) <= h.everyone
    ensures forall c :: c in h.everyone && c !in old(h.everyone) ==> fresh(c)
    ensures |log| == |sections| && Follows(LimitsOf(h), books, sections, log)
    ensures books[0] == old(BookOf(h, Flight(multiset{}, multiset{}, h.clients.Values)))
    ensures books[|log|] == BookOf(h, f)
    ensures forall c :: c in h.everyone ==> (c.closed <==> c.id !in h.clients)
    ensures |h.clients| <= h.maxConn && forall ip :: |OfIp(h.clients, ip)| <= h.maxConnPerIP
    ensures SendsBalance(log, f) && QueuesBalance(old(h.Queues()), log, h.Queues())
  {
    log, f := [], Flight(multiset{}, multiset{}, h.clients.Values);
    books := [BookOf(h, f)];
    for i := 0 to |sections|
      invariant h.Valid() && Known(f, h.everyone) && old(h.everyone) <= h.everyone
      invariant forall c :: c in h.everyone && c !in old(h.everyone) ==> fresh(c)
      invariant |log| == i && Follows(LimitsOf(h), books, sections, log)
      invariant books[0] == old(BookOf(h, Flight(multiset{}, multiset{}, h.clients.Values))) && books[i] == BookOf(h, f)
    {
      ghost var b := BookOf(h, f);
      var e;
      e, f := RunSection(h, sections[i], f);
      SectionTurns(LimitsOf(h), b, sections[i], e, BookOf(h, f));
      FollowsOneMore(LimitsOf(h), books, sections, log, e, BookOf(h, f));
      books := books + [BookOf(h, f)];
      log := log + [e];
    }
    RunTurns(LimitsOf(h), books, sections, log);
    BooksBalance(books, log);
  }

  /** The fault is real: two broadcasts that both have a slow subscriber in their snapshot. The first
      has it removed and its channel closed, the second sends on the closed channel. */
  method TwoBroadcasts(h: Hub, c: Client, topic: Topic, one: string, two: string)
    returns (first: Delivery, second: Delivery)
    requires h.Valid() && c in h.everyone && c.id in h.clients && topic in c.topics && |c.send| >= QUEUE
    modifies h`clients, h`topicClients, c`send, h.everyone`closed
    ensures h.Valid() && first.Full? && second.Panicked?
  {
    var targets := h.Snapshot(topic);
    var targets' := h.Snapshot(topic);
    assert c in targets && c in targets';
    first := h.Offer(c, one);
    h.Evict(c);
    second := h.Offer(c, two);
  }

  /** A queue found full can be drained before the removal, which goes ahead all the same. */
  method DrainedAndEvicted(h: Hub, c: Client, data: string, now: int) returns (r: Delivery)
    requires h.Valid() && c in h.everyone && c.id in h.clients && |c.send| == QUEUE
    modifies h`clients, h`topicClients, c`send, c`active, h.everyone`closed
    ensures h.Valid() && r.Full? && |c.send| < QUEUE && c.closed && c.id !in h.clients
  {
    r := h.Offer(c, data);
    var _ := h.Receive(c, now);
    h.Evict(c);
  }
}
