/** Log history and live delivery (internal/logstream/broker.go), and the writer that cuts build output
    into lines (brokerWriter and trimNewline in internal/deploy/worker.go).

    The methods of Topic run under its mutex, so each is one step; their contracts hold whatever calls of
    other goroutines come between. Sending on a closed channel, or closing one twice, is a panic in Go:
    here it is a precondition, so that verifying a caller shows it does neither. */
module LogStream {
  import opened Bytes
  import opened Seqs

  /** What one subscriber's channel buffers. */
  const SUB_BUFFER := 1024

  /** What a viewer is shown first: the note about trimmed lines, then the lines kept. */
  datatype Entry = Note(dropped: nat, kept: nat) | Line(text: Str)

  function Shown(dropped: nat, maxLines: nat, lines: seq<Str>): seq<Entry> {
    (if dropped == 0 then [] else [Note(dropped, maxLines)]) + seq(|lines|, i requires 0 <= i < |lines| => Line(lines[i]))
  }

  /** What the viewer is shown: exactly the lines kept, after a note if and only if lines were dropped. */
  lemma ShownExactly(dropped: nat, maxLines: nat, lines: seq<Str>)
    ensures var note := if dropped > 0 then 1 else 0;
      && |Shown(dropped, maxLines, lines)| == note + |lines|
      && (dropped > 0 ==> Shown(dropped, maxLines, lines)[0] == Note(dropped, maxLines))
      && forall i :: 0 <= i < |lines| ==> Shown(dropped, maxLines, lines)[note + i] == Line(lines[i])
  {
  }

  // ------------------------------------------------------------------ subscribers

  class Subscriber {
    var buffer: seq<Str>
    var chanClosed: bool
    var closed: bool
    /** The lines of the topic that came before the history, the history itself, and every line sent since. */
    ghost const from: nat
    ghost const history: seq<Str>
    ghost var delivered: seq<Str>
    ghost var received: seq<Str>
    /** A line found the buffer full. */
    ghost var missed: bool
    /** The viewer unsubscribed. */
    ghost var cancelled: bool

    ghost predicate Valid()
      reads this
    {
      && |buffer| <= SUB_BUFFER
      && delivered == received + buffer
      && chanClosed == closed
      && (cancelled ==> closed)
    }

    constructor (ghost from: nat, ghost history: seq<Str>)
      ensures Valid() && this.from == from && this.history == history
      ensures delivered == received == [] && !missed && !cancelled && !closed
    {
      buffer, chanClosed, closed := [], false, false;
      this.from, this.history := from, history;
      delivered, received, missed, cancelled := [], [], false, false;
    }

    /** Since then it took at most n lines more; if it missed one, it had no room for n. */
    twostate predicate SentAtMost(n: nat)
      reads this
    {
      && closed == old(closed) && cancelled == old(cancelled) && received == old(received)
      && |buffer| <= |old(buffer)| + n && (missed ==> old(missed) || |old(buffer)| + n > SUB_BUFFER)
    }

    /** A send that does not wait: a full buffer loses the line. */
    method TrySend(line: Str)
      requires Valid() && !chanClosed
      modifies this
      ensures Valid() && closed == old(closed) && cancelled == old(cancelled) && received == old(received)
      ensures missed == (old(missed) || |old(buffer)| == 1024)
      ensures delivered == old(delivered) + if |old(buffer)| == 1024 then [] else [line]
      ensures |buffer| <= |old(buffer)| + 1
    {
      if |buffer| < SUB_BUFFER {
        buffer := buffer + [line];
        delivered := delivered + [line];
      } else {
        missed := true;
      }
    }

    /** s.closed = true; close(s.ch). */
    method Shut(ghost byViewer: bool)
      requires Valid() && !chanClosed
      modifies this
      ensures Valid() && closed && cancelled == byViewer && buffer == old(buffer)
      ensures delivered == old(delivered) && received == old(received) && missed == old(missed)
    {
      closed, chanClosed := true, true;
      cancelled := byViewer;
    }
  }

  // ----------------------------------------------------------------------- topics

  class Topic {
    const maxLines: nat
    var lines: seq<Str>
    var dropped: nat
    var subs: set<Subscriber>
    var closed: bool
    /** Every line published, and every subscriber ever handed out. */
    ghost var published: seq<Str>
    ghost var issued: set<Subscriber>

    ghost predicate Kept()
      reads this
    {
      dropped + |lines| == |published| && lines == published[dropped..] && |lines| <= 2 * maxLines
    }

    /** The history of s followed by what its channel carried is the published log from s.from on,
        unless its buffer once filled; after it unsubscribes, a piece of it. */
    ghost predicate Follows(s: Subscriber)
      reads this, s
    {
      !s.missed ==>
        var seen := s.history + s.delivered;
        if s.cancelled then s.from + |seen| <= |published| && seen == published[s.from..s.from + |seen|]
        else s.from <= |published| && seen == published[s.from..]
    }

    ghost predicate Valid()
      reads this, issued
    {
      && Kept()
      && subs <= issued
      && (closed ==> subs == {})
      && forall s :: s in issued ==> s.Valid() && Follows(s) && (s in subs <==> !s.closed) && (s.closed ==> s.cancelled || closed)
    }

    constructor (maxLines: nat)
      ensures Valid() && this.maxLines == maxLines && published == [] && issued == {} && !closed
    {
      this.maxLines := maxLines;
      lines, dropped, subs, closed, published, issued := [], 0, {}, false, [], {};
    }

    /** Append to the history, and cut it down to maxLines when it passed twice that. */
    method Append(line: Str)
      requires Kept()
      modifies `lines, `dropped, `published
      ensures Kept() && published == old(published) + [line]
      ensures |lines| <= maxLines || dropped == old(dropped)
    {
      lines := lines + [line];
      published := published + [line];
      if |lines| > 2 * maxLines {
        var cut := |lines| - maxLines;
        lines := lines[cut..];
        dropped := dropped + cut;
      }
    }

    /** Offer the line to every open channel; only a full one loses it. */
    method FanOut(line: Str)
      requires forall s :: s in subs ==> s.Valid() && !s.closed
      modifies subs
      ensures forall s :: s in subs ==> s.Valid() && !s.closed && s.cancelled == old(s.cancelled)
      ensures forall s :: s in subs ==> s.received == old(s.received) && |s.buffer| <= |old(s.buffer)| + 1
      ensures forall s :: s in subs ==> s.missed == (old(s.missed) || |old(s.buffer)| == SUB_BUFFER)
      ensures forall s :: s in subs && !s.missed ==> s.delivered == old(s.delivered) + [line]
    {
      var rest := subs;
      while rest != {}
        modifies subs
        invariant rest <= subs
        invariant forall s :: s in rest ==> unchanged(s)
        invariant forall s :: s in subs - rest ==> s.Valid() && !s.closed && s.cancelled == old(s.cancelled)
        invariant forall s :: s in subs - rest ==> s.received == old(s.received) && |s.buffer| <= |old(s.buffer)| + 1
        invariant forall s :: s in subs - rest ==> s.missed == (old(s.missed) || |old(s.buffer)| == SUB_BUFFER)
        invariant forall s :: s in subs - rest && !s.missed ==> s.delivered == old(s.delivered) + [line]
      {
        var s :| s in rest;
        rest := rest - {s};
        s.TrySend(line);
      }
    }

    method Publish(line: Str)
      requires Valid()
      modifies this, issued
      ensures Valid() && issued == old(issued) && subs == old(subs) && closed == old(closed)
      ensures published == old(published) + if closed then [] else [line]
      ensures forall s :: s in issued ==> s.closed == old(s.closed) && s.received == old(s.received)
      ensures forall s :: s in issued ==> s.cancelled == old(s.cancelled) && |s.buffer| <= |old(s.buffer)| + 1
      ensures forall s :: s in issued ==> s.missed == (old(s.missed) || (s in subs && |old(s.buffer)| == SUB_BUFFER))
    {
      if closed { return; }
      Append(line);
      FanOut(line);
      forall s | s in old(issued) ensures Follows(s) {
        assert old(Follows(s));
        if s in subs && !s.missed {
          assert s.history + s.delivered == old(s.history + s.delivered) + [line];
        }
      }
    }

    /** subscribe: the snapshot and the registration are one step. */
    method Subscribe() returns (history: seq<Entry>, s: Subscriber)
      requires Valid()
      modifies this
      ensures Valid() && fresh(s) && issued == old(issued) + {s}
      ensures published == old(published) && closed == old(closed) && lines == old(lines) && dropped == old(dropped)
      ensures s.from == dropped && s.history == lines && history == Shown(dropped, maxLines, s.history)
      ensures s.closed == closed && !s.cancelled && !s.missed && s.received == s.buffer == []
    {
      history := Shown(dropped, maxLines, lines);
      s := new Subscriber(dropped, lines);
      assert s.history + s.delivered == lines;
      if closed {
        s.Shut(false);
      } else {
        subs := subs + {s};
      }
      issued := issued + {s};
    }

    /** The function subscribe returns: calling it again, or after the topic closed, does nothing. */
    method Cancel(s: Subscriber)
      requires Valid() && s in issued
      modifies this, s
      ensures Valid() && issued == old(issued) && published == old(published) && closed == old(closed)
      ensures s.closed && (old(s.closed) ==> unchanged(s)) && (!old(s.closed) ==> s.cancelled)
      ensures s.delivered == old(s.delivered) && s.received == old(s.received) && s.missed == old(s.missed)
    {
      if !s.closed {
        assert Follows(s);
        s.Shut(true);
        subs := subs - {s};
      }
    }

    /** The viewer takes the next line; None says that the channel is drained and closed, or empty. */
    method Receive(s: Subscriber) returns (line: Option<Str>)
      requires Valid() && s in issued
      modifies s
      ensures Valid() && s.delivered == old(s.delivered) && s.closed == old(s.closed) && s.missed == old(s.missed)
      ensures line == if old(s.buffer) == [] then None else Some(old(s.buffer)[0])
      ensures s.received == old(s.received) + if line.None? then [] else [line.value]
    {
      if s.buffer == [] { return None; }
      line := Some(s.buffer[0]);
      s.received := s.received + [s.buffer[0]];
      s.buffer := s.buffer[1..];
    }

    /** The first half of Close, under the topic's mutex: reports whether the topic was still open. */
    method Finish() returns (first: bool)
      requires Valid()
      modifies this, issued
      ensures Valid() && closed && first == !old(closed)
      ensures issued == old(issued) && published == old(published)
      ensures forall s :: s in issued ==> s.closed && s.delivered == old(s.delivered) && s.received == old(s.received)
    {
      if closed { return false; }
      closed := true;
      var rest := subs;
      while rest != {}
        modifies subs
        invariant rest <= subs
        invariant forall s :: s in old(issued) ==> s.Valid() && Follows(s) && (s.closed <==> s !in rest)
        invariant forall s :: s in old(issued) ==> s.delivered == old(s.delivered) && s.received == old(s.received)
      {
        var s :| s in rest;
        rest := rest - {s};
        // The range over t.subs asks s.closed again; every member of subs is still open.
        if !s.closed { s.Shut(false); }
      }
      subs := {};
      first := true;
    }
  }

  // ----------------------------------------------------------------------- broker

  class Broker {
    const keepClosed: nat
    const maxLines: nat
    var topics: map<int, Topic>
    /** The finished topics, oldest first. */
    var closed: seq<int>
    /** Every topic and every subscriber this broker made. */
    ghost var owned: set<Topic>
    ghost var handed: set<Subscriber>

    ghost predicate Separate(i: int, j: int)
      requires i in topics && j in topics
      reads this, topics.Values
    {
      i != j ==> topics[i] != topics[j] && topics[i].issued !! topics[j].issued
    }

    ghost predicate TopicOk(i: int)
      requires i in topics
      reads this, topics.Values, topics[i].issued
    {
      topics[i] in owned && topics[i].issued <= handed && topics[i].maxLines == maxLines && topics[i].Valid()
    }

    ghost predicate TopicsValid()
      reads this, owned, handed
    {
      && (forall i :: i in topics ==> topics[i] in owned && topics[i].issued <= handed)
      && (forall i :: i in topics ==> TopicOk(i))
      && (forall i, j :: i in topics && j in topics ==> Separate(i, j))
    }

    ghost function FinishedIds(): set<int>
      reads this, set i | i in topics :: topics[i]
    {
      set i | i in topics && topics[i].closed
    }

    /** The finished topics are exactly those in `closed`, and there are at most keepClosed of them. */
    ghost predicate BooksValid()
      reads this, set i | i in topics :: topics[i]
    {
      |closed| <= keepClosed && NoDuplicates(closed) && Elements(closed) == FinishedIds()
    }

    ghost predicate Valid()
      reads this, owned, handed
    {
      TopicsValid() && BooksValid()
    }

    /** Since then the viewers took at most n lines more; one that missed a line had no room for n. */
    twostate predicate AtMostSent(n: nat)
      reads this, handed
    {
      old(handed) <= handed && forall s :: s in old(handed) ==> s.SentAtMost(n)
    }

    /** Since then no topic was forgotten, and none handed out a viewer. */
    twostate predicate SameViewers()
      reads this, topics.Values
    {
      forall i :: i in old(topics) ==> i in topics && topics[i] == old(topics)[i] && topics[i].issued == old(topics[i].issued)
    }

    /** A step inside one topic leaves the others valid and apart from it. */
    twostate lemma OneTopicChanged(id: int)
      requires id in topics && topics == old(topics) && old(TopicsValid()) && owned == old(owned)
      requires topics[id].Valid() && fresh(topics[id].issued - old(topics[id].issued))
      requires handed == old(handed) + topics[id].issued
      requires forall i :: i in topics && i != id ==> unchanged(topics[i])
      requires forall i, s :: i in topics && i != id && s in topics[i].issued ==> unchanged(s)
      ensures TopicsValid()
    {
      assert old(TopicOk(id));
      forall i | i in topics ensures TopicOk(i) {
        if i != id { assert old(TopicOk(i)); }
      }
      forall i, j | i in topics && j in topics ensures Separate(i, j) {
        assert old(Separate(i, j));
      }
    }

    /** The log of a deployment: nothing if the broker holds no topic for it. */
    ghost function Published(id: int): seq<Str>
      reads this, set i | i in topics :: topics[i]
    {
      if id in topics then topics[id].published else []
    }

    constructor (keepClosed: nat, maxLines: nat)
      ensures Valid() && topics == map[] && owned == {} && handed == {} && this.keepClosed == keepClosed && this.maxLines == maxLines
    {
      this.keepClosed, this.maxLines, topics, closed, owned, handed := keepClosed, maxLines, map[], [], {}, {};
    }

    method TopicFor(id: int) returns (t: Topic)
      requires Valid()
      modifies this
      ensures Valid() && id in topics && t == topics[id] && closed == old(closed)
      ensures topics == old(topics)[id := t] && handed == old(handed) && owned == old(owned) + {t}
      ensures if id in old(topics) then t == old(topics)[id] else fresh(t) && t.published == [] && !t.closed && t.issued == {}
      ensures FinishedIds() == old(FinishedIds()) && forall i :: Published(i) == old(Published(i))
    {
      if id in topics { return topics[id]; }
      t := new Topic(maxLines);
      topics := topics[id := t];
      owned := owned + {t};
    }

    /** t.Publish on the topic of a deployment that has one. */
    method PublishTo(id: int, line: Str)
      requires Valid() && id in topics
      modifies topics[id], topics[id].issued
      ensures Valid() && topics[id].issued == old(topics[id].issued) && topics[id].closed == old(topics[id].closed)
      ensures topics[id].published == old(topics[id].published) + if topics[id].closed then [] else [line]
      ensures AtMostSent(1) && SameViewers() && FinishedIds() == old(FinishedIds())
      ensures forall i :: i != id ==> Published(i) == old(Published(i))
    {
      assert TopicOk(id);
      assert forall i :: i in topics && i != id ==> Separate(i, id);
      topics[id].Publish(line);
      OneTopicChanged(id);
      forall s | s in old(handed) ensures s.SentAtMost(1) {
        if s !in topics[id].issued { assert unchanged(s); }
      }
      assert forall i :: i in topics ==> topics[i].closed == old(topics[i].closed);
    }

    method Publish(id: int, line: Str)
      requires Valid()
      modifies this, owned, handed
      ensures Valid() && closed == old(closed)
      ensures topics.Keys == old(topics.Keys) + {id}
      ensures Published(id) == old(Published(id)) + if id in old(FinishedIds()) then [] else [line]
      ensures FinishedIds() == old(FinishedIds()) && handed == old(handed) && fresh(owned - old(owned))
      ensures forall i :: i != id ==> Published(i) == old(Published(i))
      ensures AtMostSent(1) && SameViewers()
    {
      var t := TopicFor(id);
      PublishTo(id, line);
    }

    /** subscribe on the topic of a deployment that has one. */
    method SubscribeIn(id: int) returns (history: seq<Entry>, s: Subscriber)
      requires Valid() && id in topics
      modifies `handed, topics[id]
      ensures Valid() && fresh(s) && handed == old(handed) + {s} && topics[id].issued == old(topics[id].issued) + {s}
      ensures s.closed == topics[id].closed == old(topics[id].closed)
      ensures !s.cancelled && !s.missed && s.received == s.buffer == []
      ensures topics[id].published == old(topics[id].published)
      ensures s.history == topics[id].lines && s.from == topics[id].dropped && history == Shown(s.from, maxLines, s.history)
    {
      assert TopicOk(id);
      assert forall i :: i in topics && i != id ==> Separate(i, id);
      history, s := topics[id].Subscribe();
      handed := handed + {s};
      OneTopicChanged(id);
    }

    /** Subscribe: the topic is made if need be. */
    method Subscribe(id: int) returns (history: seq<Entry>, s: Subscriber)
      requires Valid()
      modifies this, owned
      ensures Valid() && closed == old(closed) && topics.Keys == old(topics.Keys) + {id}
      ensures fresh(s) && handed == old(handed) + {s} && fresh(owned - old(owned))
      ensures s in topics[id].issued && s.closed == topics[id].closed == (id in old(FinishedIds()))
      ensures !s.cancelled && !s.missed && s.received == s.buffer == []
      ensures s.history == topics[id].lines && s.from == topics[id].dropped && history == Shown(s.from, maxLines, s.history)
      ensures FinishedIds() == old(FinishedIds()) && forall i :: Published(i) == old(Published(i))
      ensures forall i :: i in old(topics) ==> topics[i] == old(topics)[i] && topics[i].issued == old(topics[i].issued) + if i == id then {s} else {}
    {
      var t := TopicFor(id);
      history, s := SubscribeIn(id);
    }

    /** SubscribeExisting: never creates a topic. */
    method SubscribeExisting(id: int) returns (history: seq<Entry>, s: Option<Subscriber>)
      requires Valid()
      modifies `handed, topics.Values
      ensures Valid() && topics == old(topics) && owned == old(owned) && closed == old(closed)
      ensures s.Some? <==> id in topics
      ensures s.Some? ==> fresh(s.value) && handed == old(handed) + {s.value} && s.value in topics[id].issued
      ensures s.Some? ==> s.value.closed == topics[id].closed == old(topics[id].closed)
      ensures s.Some? ==> !s.value.cancelled && !s.value.missed && s.value.received == s.value.buffer == []
      ensures s.Some? ==> s.value.history == topics[id].lines && s.value.from == topics[id].dropped
      ensures s.Some? ==> history == Shown(s.value.from, maxLines, s.value.history)
      ensures FinishedIds() == old(FinishedIds()) && forall i :: Published(i) == old(Published(i))
      ensures forall i :: i in topics && i != id ==> topics[i].issued == old(topics[i].issued)
      ensures id in topics ==> old(topics[id].issued) <= topics[id].issued
    {
      if id !in topics { return [], None; }
      var sub: Subscriber;
      history, sub := SubscribeIn(id);
      s := Some(sub);
    }

    /** Forgetting topics keeps the others as they are. */
    twostate lemma FewerTopics()
      requires old(TopicsValid()) && owned == old(owned) && handed == old(handed)
      requires forall t :: t in owned ==> unchanged(t)
      requires forall s :: s in handed ==> unchanged(s)
      requires forall i :: i in topics ==> i in old(topics) && topics[i] == old(topics)[i]
      ensures TopicsValid()
    {
      forall i | i in topics ensures TopicOk(i) && topics[i] in owned {
        assert old(TopicOk(i));
      }
      forall i, j | i in topics && j in topics ensures Separate(i, j) {
        assert old(Separate(i, j));
      }
    }

    /** The loop at the end of Close: the oldest finished topics go until keepClosed are left. */
    method Evict() returns (ghost k: nat)
      modifies `topics, `closed
      ensures k == if |old(closed)| > keepClosed then |old(closed)| - keepClosed else 0
      ensures closed == old(closed)[k..] && topics == old(topics) - Elements(old(closed)[..k])
    {
      k := 0;
      while |closed| > keepClosed
        invariant k <= |old(closed)| && closed == old(closed)[k..]
        invariant k > 0 ==> |closed| >= keepClosed
        invariant topics == old(topics) - Elements(old(closed)[..k])
      {
        topics := topics - {closed[0]};
        closed := closed[1..];
        k := k + 1;
      }
    }

    /** t.Finish on the topic of a deployment that has one. */
    method FinishIn(id: int) returns (first: bool)
      requires Valid() && id in topics
      modifies topics[id], topics[id].issued
      ensures TopicsValid() && first == !old(topics[id].closed) && topics[id].closed
      ensures topics[id].published == old(topics[id].published)
      ensures FinishedIds() == old(FinishedIds()) + {id}
    {
      assert TopicOk(id);
      assert forall i :: i in topics && i != id ==> Separate(i, id);
      first := topics[id].Finish();
      OneTopicChanged(id);
    }

    /** The first half of Close: the topic is found, or made, and finished. */
    method FinishTopic(id: int) returns (first: bool)
      requires Valid()
      modifies this, owned, handed
      ensures TopicsValid() && closed == old(closed) && first == (id !in old(FinishedIds()))
      ensures first || topics == old(topics)
      ensures topics.Keys == old(topics.Keys) + {id} && FinishedIds() == old(FinishedIds()) + {id}
      ensures forall i :: i in topics ==> Published(i) == old(Published(i))
    {
      var t := TopicFor(id);
      assert TopicOk(id);
      assert forall i :: i in topics && i != id ==> Separate(i, id);
      first := FinishIn(id);
    }

    /** The second half of Close, under the broker's mutex. */
    method Retire(id: int)
      requires TopicsValid() && NoDuplicates(closed) && |closed| <= keepClosed && id !in closed
      requires FinishedIds() == Elements(closed) + {id}
      modifies `topics, `closed
      ensures Valid() && closed == LastOf(old(closed) + [id], keepClosed)
      ensures topics.Keys == old(topics.Keys - FinishedIds()) + Elements(closed)
      ensures forall i :: i in topics ==> i in old(topics) && topics[i] == old(topics)[i]
    {
      closed := closed + [id];
      ghost var k := Evict();
      FewerTopics();
      KeepNewest(old(closed), id, k);
    }

    /** Close: only the finished topics beyond the newest keepClosed are forgotten, never an open one. */
    method Close(id: int)
      requires Valid()
      modifies this, owned, handed
      ensures Valid()
      ensures id in old(FinishedIds()) ==> closed == old(closed) && topics == old(topics)
      ensures id !in old(FinishedIds()) ==> closed == LastOf(old(closed) + [id], keepClosed)
      ensures topics.Keys == old(topics.Keys - FinishedIds()) - {id} + Elements(closed)
      ensures forall i :: i in topics ==> Published(i) == old(Published(i))
    {
      var first := FinishTopic(id);
      if !first { return; }
      Retire(id);
    }
  }

  function Elements(s: seq<int>): set<int> { set i | i in s }

  lemma KeepNewest(ids: seq<int>, id: int, k: nat)
    requires NoDuplicates(ids) && id !in ids && k <= |ids| + 1
    ensures NoDuplicates((ids + [id])[k..])
    ensures Elements((ids + [id])[k..]) == Elements(ids) + {id} - Elements((ids + [id])[..k])
  {
    var all := ids + [id];
    assert NoDuplicates(all);
    SplitApart(all, k);
    assert forall a :: 0 <= a < |all| - k ==> all[k..][a] == all[k + a];
    assert forall i :: i in all <==> i in ids || i == id;
  }

  function LastOf(s: seq<int>, n: nat): seq<int> {
    s[if |s| > n then |s| - n else 0..]
  }

  /** Eviction takes the oldest: what stays are the last ones, as many as fit. */
  lemma LastOfExactly(s: seq<int>, n: nat)
    ensures |LastOf(s, n)| == if |s| < n then |s| else n
    ensures exists gone :: s == gone + LastOf(s, n)
  {
    assert s == s[..|s| - |LastOf(s, n)|] + LastOf(s, n);
  }

  // ---------------------------------------------------------------- cutting lines

  const NL: byte := 10
  const CR: byte := 13

  function TrimReturn(s: Str): Str {
    if |s| > 0 && s[|s| - 1] == CR then s[..|s| - 1] else s
  }

  /** trimNewline: one line feed, then one carriage return. */
  function TrimNewline(s: Str): Str {
    TrimReturn(if |s| > 0 && s[|s| - 1] == NL then s[..|s| - 1] else s)
  }

  /** A line ends with a line feed, and a carriage return just before it goes too; no other byte does. */
  lemma TrimExactly(p: Str)
    ensures TrimNewline(p + ['\r' as byte, '\n' as byte]) == p
    ensures |p| == 0 || p[|p| - 1] as char != '\r' ==> TrimNewline(p + ['\n' as byte]) == p
    ensures |p| == 0 || p[|p| - 1] as char !in "\r\n" ==> TrimNewline(p) == p
  {
    var crlf := p + ['\r' as byte, '\n' as byte];
    assert crlf[..|p| + 1] == p + ['\r' as byte] && (p + ['\r' as byte])[..|p|] == p;
    assert (p + ['\n' as byte])[..|p|] == p;
  }

  /** The first line of a text, and the lines after it. */
  lemma LinesExactly(p: Str, rest: Str)
    requires '\n' as byte !in p
    ensures Lines(p + ['\n' as byte] + rest) == [TrimNewline(p + ['\n' as byte])] + Lines(rest)
    ensures Unfinished(p + ['\n' as byte] + rest) == Unfinished(rest)
    ensures Lines(p) == [] && Unfinished(p) == p
  {
    var text := p + ['\n' as byte] + rest;
    assert text[..|p|] == p && text[|p|] == NL && text[|p| + 1..] == rest;
    IndexByteUnique(text, NL, |p|);
    TrimEnded(p);
    IndexByteFirst(p, NL);
  }

  lemma TrimEnded(p: Str)
    ensures TrimNewline(p + [NL]) == TrimReturn(p)
  {
    assert (p + [NL])[..|p|] == p;
  }

  /** The complete lines of a text, without their line endings. */
  function Lines(text: Str): seq<Str>
    decreases |text|
  {
    var i := IndexByte(text, NL);
    if i < 0 then [] else [TrimReturn(text[..i])] + Lines(text[i + 1..])
  }

  /** What follows the last line feed. */
  function Unfinished(text: Str): Str
    decreases |text|
  {
    var i := IndexByte(text, NL);
    if i < 0 then text else Unfinished(text[i + 1..])
  }

  /** The lines are the pieces of the text between its line feeds, one carriage return stripped; the last
      piece, which no line feed ends, is the unfinished one. */
  lemma {:induction false} LinesAreSplit(text: Str)
    ensures |Split(text, NL)| == |Lines(text)| + 1
    ensures forall k :: 0 <= k < |Lines(text)| ==> Lines(text)[k] == TrimReturn(Split(text, NL)[k])
    ensures Unfinished(text) == Split(text, NL)[|Lines(text)|]
    decreases |text|
  {
    var i := IndexByte(text, NL);
    if i >= 0 {
      LinesAreSplit(text[i + 1..]);
      SplitFirst(text, NL, i);
      OneLineMore(text[..i], Lines(text[i + 1..]), Split(text[i + 1..], NL), Lines(text), Split(text, NL));
    }
  }

  lemma OneLineMore(p: Str, lines: seq<Str>, pieces: seq<Str>, moreLines: seq<Str>, morePieces: seq<Str>)
    requires |pieces| == |lines| + 1 && forall k :: 0 <= k < |lines| ==> lines[k] == TrimReturn(pieces[k])
    requires moreLines == [TrimReturn(p)] + lines && morePieces == [p] + pieces
    ensures |morePieces| == |moreLines| + 1 && morePieces[|moreLines|] == pieces[|lines|]
    ensures forall k :: 0 <= k < |moreLines| ==> moreLines[k] == TrimReturn(morePieces[k])
  {
  }

  lemma NoLine(text: Str)
    requires NL !in text
    ensures Lines(text) == [] && Unfinished(text) == text
  {
  }

  lemma SameFirstLine(a: Str, b: Str, ab: Str, i: nat)
    requires i < |a| && i == IndexByte(a, NL) && ab == a + b
    ensures IndexByte(ab, NL) == i && ab[..i] == a[..i] && ab[i + 1..] == a[i + 1..] + b
  {
    IndexByteFirst(a, NL);
    assert ab[..i] == a[..i] && ab[i] == NL;
    IndexByteUnique(ab, NL, i);
  }

  lemma FirstLineOfBoth(a: Str, b: Str, i: nat, ab: Str, rest: Str)
    requires i < |a| && i == IndexByte(a, NL) && ab == a + b && rest == a[i + 1..]
    ensures Lines(ab) == [TrimReturn(a[..i])] + Lines(rest + b) && Lines(a) == [TrimReturn(a[..i])] + Lines(rest)
    ensures Unfinished(ab) == Unfinished(rest + b) && Unfinished(a) == Unfinished(rest)
  {
    SameFirstLine(a, b, ab, i);
  }

  lemma Regroup(first: seq<Str>, middle: seq<Str>, last: seq<Str>)
    ensures first + (middle + last) == (first + middle) + last
  {
  }

  /** Cutting a text after any byte and carrying the unfinished piece over yields the same lines. */
  lemma {:induction false} CutAnywhere(a: Str, b: Str)
    ensures Lines(a + b) == Lines(a) + Lines(Unfinished(a) + b)
    ensures Unfinished(a + b) == Unfinished(Unfinished(a) + b)
    decreases |a|
  {
    var i := IndexByte(a, NL);
    IndexByteFirst(a, NL);
    if i < 0 {
      NoLine(a);
      assert [] + Lines(a + b) == Lines(a + b);
    } else {
      var rest := a[i + 1..];
      CutAnywhere(rest, b);
      FirstLineOfBoth(a, b, i, a + b, rest);
      Regroup([TrimReturn(a[..i])], Lines(rest), Lines(Unfinished(rest) + b));
    }
  }

  function Flatten(chunks: seq<Str>): Str {
    if chunks == [] then [] else Flatten(chunks[..|chunks| - 1]) + chunks[|chunks| - 1]
  }

  /** The buffer and the lines out after writing the chunks one by one, starting with an empty buffer. */
  function Written(chunks: seq<Str>): (seq<Str>, Str) {
    if chunks == [] then ([], [])
    else
      var (out, buf) := Written(chunks[..|chunks| - 1]);
      var text := buf + chunks[|chunks| - 1];
      (out + Lines(text), Unfinished(text))
  }

  /** However the output is chunked, the lines are those of the whole byte stream. */
  lemma {:induction false} ChunkingIrrelevant(chunks: seq<Str>)
    ensures Written(chunks) == (Lines(Flatten(chunks)), Unfinished(Flatten(chunks)))
  {
    if chunks == [] {
      NoLine([]);
    } else {
      var init := chunks[..|chunks| - 1];
      ChunkingIrrelevant(init);
      CutAnywhere(Flatten(init), chunks[|chunks| - 1]);
    }
  }

  lemma Push(log: seq<Str>, out: seq<Str>, next: seq<Str>)
    ensures log + (out + next) == (log + out) + next
  {
    assert next == [] ==> log + (out + next) == log + out;
  }

  /** The lines of a text that are out already, and the rest that is to be read. */
  predicate GoneOut(whole: Str, out: seq<Str>, rest: Str) {
    Lines(whole) == out + Lines(rest) && Unfinished(whole) == Unfinished(rest)
  }

  lemma StartsWhole(whole: Str)
    ensures GoneOut(whole, [], whole)
  {
    assert [] + Lines(whole) == Lines(whole);
  }

  lemma NextOut(whole: Str, out: seq<Str>, rest: Str, text: Str, left: Str, more: bool)
    requires GoneOut(whole, out, rest) && Unfinished(rest) == Unfinished(left)
    requires if more then Lines(rest) == [text] + Lines(left) else rest == left && Lines(rest) == [] && Unfinished(rest) == rest
    ensures GoneOut(whole, out + if more then [text] else [], left)
    ensures !more ==> out + [] == Lines(whole) && left == Unfinished(whole)
  {
    if more { assert out + ([text] + Lines(left)) == (out + [text]) + Lines(left); } else { assert out + [] == out; }
  }

  lemma Extend(stream: Str, p: Str, base: seq<Str>, log: seq<Str>)
    requires log == base + Lines(stream)
    ensures Unfinished(Unfinished(stream) + p) == Unfinished(stream + p)
    ensures log + Lines(Unfinished(stream) + p) == base + Lines(stream + p)
  {
    CutAnywhere(stream, p);
  }

  class Writer {
    const broker: Broker
    const id: int
    var buf: Str
    /** Everything written so far, and what the log held before. */
    ghost var stream: Str
    ghost const base: seq<Str>

    constructor (broker: Broker, id: int)
      ensures this.broker == broker && this.id == id && buf == stream == []
      ensures base == broker.Published(id)
    {
      this.broker, this.id, this.base := broker, id, broker.Published(id);
      buf, stream := [], [];
    }

    /** While the log is open and this is its only writer, it holds the lines of the whole stream. */
    ghost predicate UpToDate()
      reads this, broker, set i | i in broker.topics :: broker.topics[i]
    {
      buf == Unfinished(stream) && broker.Published(id) == base + Lines(stream)
    }

    /** bytes.Buffer.ReadString up to a line feed; when there is none, the buffer stays as it was. */
    method ReadLine() returns (line: Option<Str>)
      modifies `buf
      ensures line.None? ==> buf == old(buf) && Lines(buf) == [] && Unfinished(buf) == buf
      ensures line.Some? ==> |buf| < |old(buf)| && Unfinished(old(buf)) == Unfinished(buf)
      ensures line.Some? ==> Lines(old(buf)) == [TrimNewline(line.value)] + Lines(buf)
    {
      var i := IndexByte(buf, NL);
      IndexByteFirst(buf, NL);
      if i < 0 {
        NoLine(buf);
        return None;
      }
      line := Some(buf[..i + 1]);
      assert buf[..i + 1] == buf[..i] + [NL];
      TrimEnded(buf[..i]);
      buf := buf[i + 1..];
    }

    /** The next complete line, cut as trimNewline cuts it. */
    method NextText() returns (more: bool, text: Str)
      modifies `buf
      ensures Unfinished(old(buf)) == Unfinished(buf)
      ensures more ==> |buf| < |old(buf)| && Lines(old(buf)) == [text] + Lines(buf)
      ensures !more ==> buf == old(buf) && Lines(buf) == [] && Unfinished(buf) == buf
    {
      var line := ReadLine();
      more := line.Some?;
      text := if more then TrimNewline(line.value) else [];
    }

    /** One turn of the loop of Write. */
    method PublishNext() returns (more: bool, ghost text: Str)
      requires broker.Valid()
      modifies `buf, broker, broker.owned, broker.handed
      ensures Unfinished(old(buf)) == Unfinished(buf)
      ensures more ==> |buf| < |old(buf)| && Lines(old(buf)) == [text] + Lines(buf)
      ensures !more ==> buf == old(buf) && Lines(buf) == [] && Unfinished(buf) == buf
      ensures broker.Valid() && broker.FinishedIds() == old(broker.FinishedIds())
      ensures broker.handed == old(broker.handed) && fresh(broker.owned - old(broker.owned))
      ensures broker.Published(id) == old(broker.Published(id)) + if !more || id in old(broker.FinishedIds()) then [] else [text]
      ensures forall i :: i != id ==> broker.Published(i) == old(broker.Published(i))
      ensures broker.AtMostSent(if more then 1 else 0) && broker.SameViewers()
    {
      var line;
      more, line := NextText();
      text := line;
      assert broker.FinishedIds() == old(broker.FinishedIds());
      assert broker.Valid() && forall i :: broker.Published(i) == old(broker.Published(i));
      if more { broker.Publish(id, line); }
    }

    /** The loop of Write: publish the complete lines of the buffer, keep the rest. */
    method Drain()
      requires broker.Valid()
      modifies `buf, broker, broker.owned, broker.handed
      ensures broker.Valid() && buf == Unfinished(old(buf))
      ensures broker.FinishedIds() == old(broker.FinishedIds())
      ensures broker.Published(id) == old(broker.Published(id)) + if id in old(broker.FinishedIds()) then [] else Lines(old(buf))
      ensures broker.handed == old(broker.handed) && fresh(broker.owned - old(broker.owned))
      ensures broker.AtMostSent(|Lines(old(buf))|) && broker.SameViewers()
      ensures forall i :: i != id ==> broker.Published(i) == old(broker.Published(i))
    {
      ghost var log, whole, over := broker.Published(id), buf, id in broker.FinishedIds();
      ghost var out: seq<Str> := [];
      var more := true;
      StartsWhole(whole);
      while more
        invariant broker.Valid() && broker.FinishedIds() == old(broker.FinishedIds())
        invariant broker.handed == old(broker.handed) && fresh(broker.owned - old(broker.owned))
        invariant GoneOut(whole, out, buf) && (!more ==> out == Lines(whole) && buf == Unfinished(whole))
        invariant broker.Published(id) == if over then log else log + out
        invariant broker.AtMostSent(|out|) && broker.SameViewers()
        invariant forall i :: i != id ==> broker.Published(i) == old(broker.Published(i))
        decreases more, |buf|
      {
        ghost var before := buf;
        ghost var text;
        label turn:
        more, text := PublishNext();
        ghost var next := if more then [text] else [];
        forall s | s in old(broker.handed) ensures s.SentAtMost(|out + next|) {
          assert s.SentAtMost@turn(|next|);
        }
        NextOut(whole, out, before, text, buf, more);
        Push(log, out, next);
        out := out + next;
      }
    }

    method Write(p: Str)
      requires broker.Valid()
      modifies this, broker, broker.owned, broker.handed
      ensures broker.Valid() && stream == old(stream) + p && buf == Unfinished(old(buf) + p)
      ensures broker.FinishedIds() == old(broker.FinishedIds())
      ensures broker.Published(id) == old(broker.Published(id)) + if id in old(broker.FinishedIds()) then [] else Lines(old(buf) + p)
      ensures id !in old(broker.FinishedIds()) && old(UpToDate()) ==> UpToDate()
      ensures broker.handed == old(broker.handed) && fresh(broker.owned - old(broker.owned))
      ensures broker.AtMostSent(|Lines(old(buf) + p)|) && broker.SameViewers()
      ensures forall i :: i != id ==> broker.Published(i) == old(broker.Published(i))
    {
      ghost var written, log := stream, broker.Published(id);
      Feed(p);
      stream := written + p;
      if old(UpToDate()) { Extend(written, p, base, log); }
    }

    /** The code of Write. */
    method Feed(p: Str)
      requires broker.Valid()
      modifies `buf, broker, broker.owned, broker.handed
      ensures broker.Valid() && buf == Unfinished(old(buf) + p)
      ensures broker.FinishedIds() == old(broker.FinishedIds())
      ensures broker.Published(id) == old(broker.Published(id)) + if id in old(broker.FinishedIds()) then [] else Lines(old(buf) + p)
      ensures broker.handed == old(broker.handed) && fresh(broker.owned - old(broker.owned))
      ensures broker.AtMostSent(|Lines(old(buf) + p)|) && broker.SameViewers()
      ensures forall i :: i != id ==> broker.Published(i) == old(broker.Published(i))
    {
      buf := buf + p;
      Drain();
    }
  }

  /** The history is the tail of the log, and what a viewer saw so far is a contiguous suffix of the
      lines of the byte stream, with nothing missed or repeated, while its buffer never filled. */
  lemma ViewerSeesStream(w: Writer, s: Subscriber)
    requires w.broker.Valid() && w.UpToDate() && w.base == [] && w.id in w.broker.topics
    requires s in w.broker.topics[w.id].issued && !s.missed && !s.cancelled
    ensures w.broker.topics[w.id].dropped + |w.broker.topics[w.id].lines| == |Lines(w.stream)|
    ensures w.broker.topics[w.id].lines == Lines(w.stream)[w.broker.topics[w.id].dropped..]
    ensures |w.broker.topics[w.id].lines| <= 2 * w.broker.maxLines
    ensures s.from <= |Lines(w.stream)| && s.history + s.received + s.buffer == Lines(w.stream)[s.from..]
  {
    var t := w.broker.topics[w.id];
    assert w.broker.TopicOk(w.id);
    assert t.published == w.base + Lines(w.stream) == Lines(w.stream);
    assert t.Follows(s) && s.Valid();
    assert s.history + (s.received + s.buffer) == s.history + s.received + s.buffer;
  }
}
