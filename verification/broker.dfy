/** The broker loop's cases over its mutable tables and connections, each proved against the
    state machine of `BrokerSpec`. */
module BrokerLoop {
  import opened ByteStrings
  import opened Inbound
  import opened BrokerSpec

  /** A session record is shared with the timer that watches its confirmation. */
  class SessionRecord {
    const dev: Device
    const user: User
    var confirmed: bool
    /** The key it is stored under. */
    ghost const sid: Bytes

    constructor (dev: Device, user: User, ghost sid: Bytes)
      ensures this.dev == dev && this.user == user && !confirmed && this.sid == sid
    {
      this.dev, this.user, confirmed, this.sid := dev, user, false, sid;
    }
  }

  class Broker {
    const token: Bytes
    var devices: map<Bytes, Device>
    var sessions: map<Bytes, SessionRecord>
    var queue: seq<UserMessage>
    var log: seq<Act>
    var down: bool
    /** The abstract state that the tables and the connections' fields stand for. */
    ghost var st: State
    /** The device connections accepted so far. */
    ghost var devs: set<Device>
    /** The session records made so far; a timer may still hold a deleted one. */
    ghost var records: set<SessionRecord>

    /** The session table stands for `m`; every record is stored once, under its own key. */
    static ghost predicate SessionsStand(m: map<Bytes, Session>, t: map<Bytes, SessionRecord>, records: set<SessionRecord>)
      reads records
    {
      && (forall sid :: sid in m <==> sid in t)
      && (forall sid :: sid in t ==>
            && t[sid] in records && t[sid].sid == sid
            && m[sid] == Session(t[sid].dev, t[sid].user, t[sid].confirmed))
    }

    /** Sessions are held by users who connected. */
    static ghost predicate UsersKnown(m: map<Bytes, Session>, sids: map<User, Bytes>) {
      forall sid :: sid in m ==> m[sid].user in sids
    }

    static ghost predicate DevicesStand(devs: set<Device>, registered: set<Device>)
      reads devs
    {
      && (forall d :: d in devs ==> (d.registered <==> d in registered))
      && (forall d :: d in registered ==> d in devs)
    }

    static ghost predicate UsersStand(sids: map<User, Bytes>)
      reads sids.Keys
    {
      forall u :: u in sids ==> u.sid == sids[u]
    }

    ghost predicate Valid()
      reads this, records, devs, st.sids.Keys
    {
      && st.devices == devices && st.queue == queue && st.log == log && st.down == down
      && SessionsStand(st.sessions, sessions, records)
      && UsersKnown(st.sessions, st.sids)
      && DevicesStand(devs, st.registered)
      && UsersStand(st.sids)
    }

    constructor (token: Bytes)
      ensures Valid() && st == START && devs == {} && this.token == token
    {
      this.token := token;
      devices, sessions, queue, log, down := map[], map[], [], [], false;
      st, devs, records := START, {}, {};
    }

    /** A connection accepted by `listenDevice`. */
    method AcceptDevice(dev: Device)
      requires Valid() && !dev.registered
      modifies this`devs
      ensures Valid() && devs == old(devs) + {dev}
    {
      devs := devs + {dev};
    }

    /** A connection made by `serveUser`. */
    method AcceptUser(user: User)
      requires Valid() && user !in st.sids && user.sid == []
      modifies this`st
      ensures Valid() && st == old(st).(sids := old(st).sids[user := []])
    {
      st := st.(sids := st.sids[user := []]);
    }

    method RegisterDevice(dev: Device)
      requires Valid() && dev in devs
      modifies this, dev
      ensures Valid() && st == DoRegisterDevice(old(st), dev, token)
    {
      st := DoRegisterDevice(st, dev, token);
      var verdict := Registered;
      if dev.id in devices {
        verdict := Conflicting;
      } else if token != [] && dev.token != token {
        verdict := WrongToken;
      } else if dev.proto < PROTO_REQUIRED {
        verdict := OldProtocol;
      } else {
        dev.registered := true;
        devices := devices[dev.id := dev];
      }
      log := log + [ToDevice(dev, REGISTER, RegisterReply(verdict))];
    }

    /** The user's case of `register`; `newSid` is what `GenUniqueID` returns if it is called. */
    method RegisterUser(user: User, newSid: UniqueId)
      requires Valid() && user in st.sids
      modifies this
      ensures Valid() && st == DoRegisterUser(old(st), user, newSid)
    {
      ghost var was := st;
      st := DoRegisterUser(st, user, newSid);
      if user.devid in devices {
        StartSession(devices[user.devid], user, newSid, was);
      } else {
        log := log + [ToUser(user, LoginReply(user.sid, DeviceOffline))];
      }
    }

    method StartSession(dev: Device, user: User, newSid: UniqueId, ghost was: State)
      requires SessionsStand(was.sessions, sessions, records)
      modifies this`sessions, this`records, this`log
      ensures SessionsStand(was.sessions[newSid := Session(dev, user, false)], sessions, records)
      ensures log == old(log) + [ToDevice(dev, LOGIN, newSid)]
    {
      var s := new SessionRecord(dev, user, newSid);
      records := records + {s};
      sessions := sessions[newSid := s];
      log := log + [ToDevice(dev, LOGIN, newSid)];
    }

    /** The device's case of `unregister`. Its loop goes over the sessions in an order of its own,
        which the result reports, and deletes while it goes. */
    method UnregisterDevice(dev: Device) returns (ghost order: seq<Bytes>)
      requires Valid() && dev in devs
      modifies this, dev
      ensures dev in old(st).registered ==> Enumerates(order, SessionsOf(old(st), dev))
      ensures Valid() && st == DoUnregisterDevice(old(st), dev, order)
    {
      order := [];
      log := log + [Act.CloseDevice(dev)];
      if dev.registered {
        order := Remove(dev);
      }
      st := DoUnregisterDevice(st, dev, order);
    }

    method Remove(dev: Device) returns (ghost order: seq<Bytes>)
      requires SessionsStand(st.sessions, sessions, records)
      modifies this`devices, this`sessions, this`log, dev
      ensures Enumerates(order, SessionsOf(st, dev))
      ensures devices == old(devices) - {dev.id} && !dev.registered
      ensures SessionsStand(st.sessions - SessionsOf(st, dev), sessions, records)
      ensures log == old(log) + Closings(st.sessions, order)
    {
      devices := devices - {dev.id};
      dev.registered := false;
      order := CloseSessions(dev, st.sessions);
    }

    method CloseSessions(dev: Device, ghost m: map<Bytes, Session>) returns (ghost order: seq<Bytes>)
      requires forall sid :: sid in m <==> sid in sessions
      requires forall sid :: sid in sessions ==> m[sid].dev == sessions[sid].dev && m[sid].user == sessions[sid].user
      modifies this`sessions, this`log
      ensures Enumerates(order, set sid | sid in m && m[sid].dev == dev)
      ensures forall sid :: sid in sessions <==> sid in m && m[sid].dev != dev
      ensures forall sid :: sid in sessions ==> sessions[sid] == old(sessions)[sid]
      ensures log == old(log) + Closings(m, order)
    {
      ghost var all := sessions;
      var todo := sessions.Keys;
      ghost var closed: set<Bytes> := {};
      order := [];
      while todo != {}
        invariant todo <= all.Keys
        invariant sessions == all - closed
        invariant forall sid :: sid in closed <==> sid in all && sid !in todo && all[sid].dev == dev
        invariant Enumerates(order, closed)
        invariant log == old(log) + Closings(m, order)
        decreases todo
      {
        var sid :| sid in todo;
        var s := sessions[sid];
        if s.dev == dev {
          Drop(sid, s);
          OneMore(m, order, closed, sid);
          order, closed := order + [sid], closed + {sid};
        }
        todo := todo - {sid};
      }
    }

    static lemma OneMore(m: map<Bytes, Session>, order: seq<Bytes>, closed: set<Bytes>, sid: Bytes)
      requires Enumerates(order, closed) && sid !in closed && closed <= m.Keys && sid in m
      ensures Enumerates(order + [sid], closed + {sid})
      ensures Closings(m, order + [sid]) == Closings(m, order) + [Act.CloseUser(m[sid].user)]
    {
      assert (order + [sid])[..|order|] == order;
    }

    method Drop(sid: Bytes, s: SessionRecord)
      modifies this`sessions, this`log
      ensures sessions == old(sessions) - {sid} && log == old(log) + [Act.CloseUser(s.user)]
    {
      log := log + [Act.CloseUser(s.user)];
      sessions := sessions - {sid};
    }

    method UnregisterUser(user: User)
      requires Valid() && user in st.sids
      modifies this
      ensures Valid() && st == DoUnregisterUser(old(st), user)
    {
      st := DoUnregisterUser(st, user);
      log := log + [Act.CloseUser(user)];
      if user.sid in sessions {
        EndSession(user);
      }
    }

    method EndSession(user: User)
      modifies this`sessions, this`log
      ensures sessions == old(sessions) - {user.sid}
      ensures log == if user.devid in devices then old(log) + [ToDevice(devices[user.devid], LOGOUT, user.sid)] else old(log)
    {
      sessions := sessions - {user.sid};
      if user.devid in devices {
        log := log + [ToDevice(devices[user.devid], LOGOUT, user.sid)];
      }
    }

    method LoginAck(sid: Bytes, busy: bool)
      requires Valid()
      modifies this, records, st.sids.Keys
      ensures Valid() && st == DoLoginAck(old(st), sid, busy)
    {
      ghost var next := DoLoginAck(st, sid, busy);
      if sid in sessions {
        AckedOrNot(st, sid, busy, next);
        if busy {
          Refuse(sid, next);
        } else {
          Accept(sid, next);
        }
      }
    }

    /** All but the log is the same. */
    static ghost predicate Logs(s: State, t: State, more: seq<Act>) {
      && t.devices == s.devices && t.sessions == s.sessions && t.registered == s.registered && t.sids == s.sids
      && t.queue == s.queue && t.down == s.down && t.log == s.log + more
    }

    /** A session is confirmed, its user gets the sid, and both are logged. */
    static ghost predicate Confirms(s: State, sid: Bytes, t: State) {
      && sid in s.sessions
      && t.devices == s.devices && t.registered == s.registered && t.queue == s.queue && t.down == s.down
      && t.sessions == s.sessions[sid := s.sessions[sid].(confirmed := true)]
      && t.sids == s.sids[s.sessions[sid].user := sid]
      && t.log == s.log + [Accepted(sid), ToUser(s.sessions[sid].user, LoginReply(sid, NoError))]
    }

    static lemma AckedOrNot(s: State, sid: Bytes, busy: bool, t: State)
      requires sid in s.sessions && t == DoLoginAck(s, sid, busy)
      ensures if busy then Logs(s, t, [ToUser(s.sessions[sid].user, LoginReply(SidOf(s, s.sessions[sid].user), DeviceBusy))])
              else Confirms(s, sid, t)
    {
    }

    method Refuse(sid: Bytes, ghost next: State)
      requires Valid() && sid in sessions
      requires Logs(st, next, [ToUser(sessions[sid].user, LoginReply(sessions[sid].user.sid, DeviceBusy))])
      modifies this`st, this`log
      ensures Valid() && st == next
    {
      log := log + [ToUser(sessions[sid].user, LoginReply(sessions[sid].user.sid, DeviceBusy))];
      st := next;
    }

    method Accept(sid: Bytes, ghost next: State)
      requires Valid() && sid in sessions && Confirms(st, sid, next)
      modifies this, records, st.sids.Keys
      ensures Valid() && st == next
    {
      ghost var was := st;
      log, st := log + [Accepted(sid), ToUser(sessions[sid].user, LoginReply(sid, NoError))], next;
      Mark(sid, sessions[sid], sessions, records, was);
    }

    /** The connection's own fields follow the acknowledgement. */
    static method Mark(sid: Bytes, s: SessionRecord, ghost t: map<Bytes, SessionRecord>, ghost records: set<SessionRecord>, ghost was: State)
      requires sid in t && t[sid] == s
      requires SessionsStand(was.sessions, t, records) && UsersStand(was.sids)
      modifies s, s.user
      ensures SessionsStand(was.sessions[sid := was.sessions[sid].(confirmed := true)], t, records)
      ensures UsersStand(was.sids[s.user := sid])
    {
      s.confirmed := true;
      s.user.sid := sid;
    }

    method Logout(sid: Bytes)
      requires Valid()
      modifies this
      ensures Valid() && st == DoLogout(old(st), sid)
    {
      st := DoLogout(st, sid);
      if sid in sessions {
        Drop(sid, sessions[sid]);
      }
    }

    method TermMessage(sid: Bytes, data: Bytes)
      requires Valid()
      modifies this
      ensures Valid() && st == DoTermMessage(old(st), sid, data)
    {
      st := DoTermMessage(st, sid, data);
      if sid in sessions {
        log := log + [ToUser(sessions[sid].user, TermOut(data))];
      }
    }

    method FileMessage(sid: Bytes, data: Bytes)
      requires Valid()
      modifies this
      ensures Valid() && st == DoFileMessage(old(st), sid, data)
    {
      st := DoFileMessage(st, sid, data);
      if sid in sessions {
        if data == [] {
          down := true;
          return;
        }
        var user, typ := sessions[sid].user, data[0];
        if typ == FILE_SEND {
          log := log + [ToUser(user, OfferFile(data[1..]))];
        } else if typ == FILE_RECV {
          log := log + [ToUser(user, AskForFile)];
        } else if typ == FILE_ACK {
          log := log + [ToUser(user, FileAcked)];
        }
      }
    }

    /** The user's `readLoop` tags what it reads with the sid its connection has now. */
    method UserReads(user: User, body: Body)
      requires Valid() && user in st.sids
      modifies this
      ensures Valid() && st == old(st).(queue := old(st).queue + [UserMessage(SidOf(old(st), user), body)])
    {
      queue := queue + [UserMessage(user.sid, body)];
      st := st.(queue := queue);
    }

    method HandleUserMessage()
      requires Valid() && queue != []
      modifies this
      ensures Valid() && st == DoUserMessage(old(st))
    {
      ghost var was := st;
      st := DoUserMessage(st);
      var m := queue[0];
      queue := queue[1..];
      Relay(m, was);
    }

    method Relay(m: UserMessage, ghost was: State)
      requires was.devices == devices && SessionsStand(was.sessions, sessions, records)
      modifies this`log, this`down
      ensures log == old(log) + Relayed(was, m)
      ensures down == (old(down) || (m.sid in was.sessions && was.sessions[m.sid].dev.id in devices && m.body == Binary([])))
    {
      if m.sid in sessions {
        var id := sessions[m.sid].dev.id;
        if id in devices {
          if m.body == Binary([]) {
            down := true;
            return;
          }
          Forward(devices[id], m);
        }
      }
    }

    method Forward(dev: Device, m: UserMessage)
      requires m.body.Binary? ==> m.body.data != []
      modifies this`log
      ensures log == old(log) + ForwardedTo(dev, m)
    {
      var out := Forwarded(m.sid, m.body);
      if out.Some? {
        log := log + [ToDevice(dev, out.value.0, out.value.1)];
      }
    }

    /** The `cmdReq` and `httpReq` cases, which differ in the message type. */
    method Request(devid: Bytes, typ: byte, data: Bytes)
      requires Valid()
      modifies this
      ensures Valid() && st == DoRequest(old(st), devid, typ, data)
    {
      st := DoRequest(st, devid, typ, data);
      if devid in devices {
        log := log + [ToDevice(devices[devid], typ, data)];
      }
    }
  }
}
