/** The `mysql_clear_password` authentication plugin of the MySQL/MariaDB
    client/server handshake: the client answers with the password itself,
    followed by a zero terminator, with no hashing and no use of the server's
    challenge. The plugin is meant for encrypted connections only, but nothing
    in it enforces that: the restriction is documentation. */
module ClearPassword {
  import opened Wire
  import opened PacketOutputStream

  /** The `password` connection option: absent, one string, or one string
      per authentication factor. */
  datatype Password = NoPassword | Single(text: seq<byte>) | Multi(list: seq<seq<byte>>)

  /** The connection options the plugin reads. */
  datatype Options = Options(password: Password)

  /** What the server announced in its handshake; the plugin ignores it. */
  datatype ServerInfo = ServerInfo(seed: seq<byte>, serverVersion: string)

  /** The handler the command runs on the next incoming packet. */
  datatype Handler = Initial | SuccessSend

  /** Whether the password option counts as given. An absent option and an
      empty string do not; a list always does, even an empty one. */
  predicate IsSet(p: Password): (r: bool)
    ensures r <==> p != NoPassword && p != Single([])
  {
    match p
    case NoPassword => false
    case Single(text) => text != []
    case Multi(_) => true
  }

  /** For a list of passwords, the cursor must point at an entry: `start`
      indexes the list without checking. */
  predicate CursorInRange(p: Password, counter: nat)
  {
    p.Multi? ==> counter < |p.list|
  }

  /** The cursor after one `start`: a list is consumed one entry per call. */
  function NextCounter(p: Password, counter: nat): (r: nat)
    ensures counter <= r <= counter + 1
    ensures r == counter + 1 <==> p.Multi?
  {
    if p.Multi? then counter + 1 else counter
  }

  /** The cursor after `n` calls: a list moves it by `n`, anything else not
      at all. */
  function CursorAfter(p: Password, counter: nat, n: nat): nat
  {
    if p.Multi? then counter + n else counter
  }

  /** The payload of the packet one `start` sends, given the cursor before it. */
  function ResponsePayload(p: Password, counter: nat): (r: seq<byte>)
    requires CursorInRange(p, counter)
    ensures |r| >= 1 && r[|r| - 1] == 0
    ensures !IsSet(p) ==> r == [0]
    ensures p.Single? ==> r == p.text + [0]
    ensures p.Multi? ==> r == p.list[counter] + [0]
  {
    var pwd := if !IsSet(p) then [] else if p.Multi? then p.list[counter] else p.text;
    pwd + [0]
  }

  /** The server reads the response as a null-terminated string and recovers
      exactly the password that was chosen, as long as it holds no zero byte;
      a missing or empty password reads back as the empty string. */
  lemma {:induction false} ResponseRoundTrip(p: Password, counter: nat)
    requires CursorInRange(p, counter)
    ensures !IsSet(p) ==> ReadNullTerminated(ResponsePayload(p, counter)) == Some(Split([], []))
    ensures p.Single? && 0 !in p.text ==>
      ReadNullTerminated(ResponsePayload(p, counter)) == Some(Split(p.text, []))
    ensures p.Multi? && 0 !in p.list[counter] ==>
      ReadNullTerminated(ResponsePayload(p, counter)) == Some(Split(p.list[counter], []))
  {
    var pwd := if !IsSet(p) then [] else if p.Multi? then p.list[counter] else p.text;
    assert ResponsePayload(p, counter) == pwd + [0] + [];
    if 0 !in pwd {
      ReadWrittenString(pwd, []);
    }
  }

  /** The payloads of `n` consecutive `start` calls on one instance whose
      cursor is `counter` before the first of them. */
  function Transcript(p: Password, counter: nat, n: nat): (r: seq<seq<byte>>)
    requires p.Multi? ==> counter + n <= |p.list|
    ensures |r| == n
    decreases n
  {
    if n == 0 then []
    else [ResponsePayload(p, counter)] + Transcript(p, NextCounter(p, counter), n - 1)
  }

  /** A list of passwords is sent one entry per call, in list order, starting
      at the cursor. */
  lemma {:induction false} TranscriptConsumesList(list: seq<seq<byte>>, counter: nat, n: nat)
    requires counter + n <= |list|
    decreases n
    ensures forall i :: 0 <= i < n ==> Transcript(Multi(list), counter, n)[i] == list[counter + i] + [0]
  {
    if n > 0 {
      TranscriptConsumesList(list, counter + 1, n - 1);
      var t := Transcript(Multi(list), counter, n);
      assert t == [list[counter] + [0]] + Transcript(Multi(list), counter + 1, n - 1);
      forall i | 0 <= i < n
        ensures t[i] == list[counter + i] + [0]
      {
        if i > 0 {
          assert t[i] == Transcript(Multi(list), counter + 1, n - 1)[i - 1];
        }
      }
    }
  }

  /** An absent or single password is not consumed: every call sends the
      same payload. */
  lemma {:induction false} TranscriptRepeatsSingle(p: Password, counter: nat, n: nat)
    requires !p.Multi?
    ensures forall i :: 0 <= i < n ==> Transcript(p, counter, n)[i] == ResponsePayload(p, counter)
  {
    if n > 0 {
      TranscriptRepeatsSingle(p, counter, n - 1);
      var t := Transcript(p, counter, n);
      assert t == [ResponsePayload(p, counter)] + Transcript(p, counter, n - 1);
      forall i | 0 <= i < n
        ensures t[i] == ResponsePayload(p, counter)
      {
        if i > 0 {
          assert t[i] == Transcript(p, counter, n - 1)[i - 1];
        }
      }
    }
  }

  /** One more call appends one payload at the end: the one sent with the
      cursor where the first `n` calls left it. */
  lemma {:induction false} TranscriptSnoc(p: Password, counter: nat, n: nat)
    requires p.Multi? ==> counter + n < |p.list|
    ensures Transcript(p, counter, n + 1)
         == Transcript(p, counter, n) + [ResponsePayload(p, CursorAfter(p, counter, n))]
    decreases n
  {
    var last := ResponsePayload(p, CursorAfter(p, counter, n));
    if n == 0 {
      assert Transcript(p, counter, 1) == [last] + [];
    } else {
      var first, next := ResponsePayload(p, counter), NextCounter(p, counter);
      assert CursorAfter(p, next, n - 1) == CursorAfter(p, counter, n);
      calc {
        Transcript(p, counter, n + 1);
        [first] + Transcript(p, next, n);
        { TranscriptSnoc(p, next, n - 1); }
        [first] + (Transcript(p, next, n - 1) + [last]);
        { AppendAssoc([first], Transcript(p, next, n - 1), [last]); }
        ([first] + Transcript(p, next, n - 1)) + [last];
        Transcript(p, counter, n) + [last];
      }
    }
  }

  class ClearPasswordAuth {
    /** Sequence number of the last packet of this exchange; the stream
        advances it by one on every flush. */
    var sequenceNo: SeqNo
    /** Cursor into a list of passwords. */
    var counter: nat
    var onPacketReceive: Handler
    /** Whether the command has signalled that its response was sent. */
    var sendEnd: bool

    constructor (packSeq: SeqNo)
      ensures sequenceNo == packSeq && counter == 0
      ensures onPacketReceive == Initial && !sendEnd
    {
      sequenceNo := packSeq;
      counter := 0;
      onPacketReceive := Initial;
      sendEnd := false;
    }

    /** Sends the password in clear: opens a packet, writes the chosen
        password (advancing the cursor when it comes from a list), writes the
        zero terminator, flushes once, signals the end of sending and waits
        for the server's verdict. */
    method Start(out: PacketOutput, opts: Options, info: ServerInfo)
      requires CursorInRange(opts.password, counter)
      modifies this, out
      ensures out.sent == old(out.sent) + [Packet(sequenceNo, ResponsePayload(opts.password, old(counter)), true)]
      ensures out.payload == [] && out.packetSeq == sequenceNo
      ensures counter == NextCounter(opts.password, old(counter))
      ensures sequenceNo == NextSeq(old(sequenceNo))
      ensures onPacketReceive == SuccessSend && sendEnd
    {
      out.StartPacket(sequenceNo);
      if IsSet(opts.password) {
        var pwd;
        if opts.password.Multi? {
          pwd := opts.password.list[counter];
          counter := counter + 1;
        } else {
          pwd := opts.password.text;
        }
        out.WriteString(pwd);
        assert out.payload == pwd;
      }
      out.WriteInt8(0);
      sequenceNo := out.FlushBuffer(true);
      sendEnd := true;
      onPacketReceive := SuccessSend;
    }
  }

  /** The packets that carry `payloads` when they are flushed one after
      another by a command whose sequence number is `seqNo` before the
      first flush: each flush advances the number by one. */
  function Numbered(payloads: seq<seq<byte>>, seqNo: SeqNo): seq<Packet>
  {
    seq(|payloads|, k requires 0 <= k < |payloads| => Packet(SeqAfter(seqNo, k + 1), payloads[k], true))
  }

  /** Packet `k` carries payload `k`, the sequence number advanced `k + 1`
      times modulo 256, and the commit flag. */
  lemma NumberedAt(payloads: seq<seq<byte>>, seqNo: SeqNo, k: nat)
    requires k < |payloads|
    ensures |Numbered(payloads, seqNo)| == |payloads|
    ensures Numbered(payloads, seqNo)[k] == Packet((seqNo + k + 1) % 256, payloads[k], true)
  {
    SeqAfterWraps(seqNo, k + 1);
  }

  /** Flushing one more payload appends one packet, numbered after the rest. */
  lemma NumberedSnoc(payloads: seq<seq<byte>>, payload: seq<byte>, seqNo: SeqNo)
    ensures Numbered(payloads + [payload], seqNo)
         == Numbered(payloads, seqNo) + [Packet(NextSeq(SeqAfter(seqNo, |payloads|)), payload, true)]
  {
    var ps := payloads + [payload];
    assert SeqAfter(seqNo, |payloads| + 1) == NextSeq(SeqAfter(seqNo, |payloads|));
    assert forall k :: 0 <= k < |payloads| ==> ps[k] == payloads[k];
  }

  /** One more call extends the packets flushed so far by the next payload
      of the transcript, under the next sequence number. */
  lemma StartStep(sent0: seq<Packet>, before: seq<Packet>, after: seq<Packet>,
                  p: Password, counter0: nat, seq0: SeqNo, i: nat)
    requires p.Multi? ==> counter0 + i < |p.list|
    requires before == sent0 + Numbered(Transcript(p, counter0, i), seq0)
    requires after == before + [Packet(NextSeq(SeqAfter(seq0, i)),
                                       ResponsePayload(p, CursorAfter(p, counter0, i)), true)]
    ensures after == sent0 + Numbered(Transcript(p, counter0, i + 1), seq0)
  {
    var done := Transcript(p, counter0, i);
    var payload := ResponsePayload(p, CursorAfter(p, counter0, i));
    var pkt := Packet(NextSeq(SeqAfter(seq0, i)), payload, true);
    var numbered := Numbered(done, seq0);
    calc {
      after;
      (sent0 + numbered) + [pkt];
      { AppendAssoc(sent0, numbered, [pkt]); }
      sent0 + (numbered + [pkt]);
      { NumberedSnoc(done, payload, seq0); }
      sent0 + Numbered(done + [payload], seq0);
      { TranscriptSnoc(p, counter0, i); }
      sent0 + Numbered(Transcript(p, counter0, i + 1), seq0);
    }
  }

  /** `n` consecutive `start` calls on one instance flush, in order, the
      payloads of `Transcript`, numbered one after another from the
      instance's sequence number, and move the cursor past `n` entries of a
      list. */
  method StartRepeatedly(auth: ClearPasswordAuth, out: PacketOutput, opts: Options, info: ServerInfo, n: nat)
    requires opts.password.Multi? ==> auth.counter + n <= |opts.password.list|
    modifies auth, out
    ensures out.sent == old(out.sent) + Numbered(Transcript(opts.password, old(auth.counter), n), old(auth.sequenceNo))
    ensures auth.counter == CursorAfter(opts.password, old(auth.counter), n)
    ensures auth.sequenceNo == SeqAfter(old(auth.sequenceNo), n)
  {
    ghost var sent0, counter0, seq0 := out.sent, auth.counter, auth.sequenceNo;
    assert Numbered(Transcript(opts.password, counter0, 0), seq0) == [];
    assert sent0 + [] == sent0;
    var i := 0;
    while i < n
      invariant 0 <= i <= n
      invariant out.sent == sent0 + Numbered(Transcript(opts.password, counter0, i), seq0)
      invariant auth.counter == CursorAfter(opts.password, counter0, i)
      invariant auth.sequenceNo == SeqAfter(seq0, i)
    {
      ghost var before := out.sent;
      auth.Start(out, opts, info);
      StartStep(sent0, before, out.sent, opts.password, counter0, seq0, i);
      i := i + 1;
    }
  }

  /** Two-factor authentication: with the list `[p1, p2]`, two consecutive
      `start` calls on one fresh instance send `p1` and then `p2`, each
      terminated and each under the next sequence number, and leave the
      cursor past both entries. */
  method TwoFactorStarts(packSeq: SeqNo, p1: seq<byte>, p2: seq<byte>, info: ServerInfo)
    returns (sent: seq<Packet>, counter: nat)
    ensures sent == [Packet((packSeq + 1) % 256, p1 + [0], true), Packet((packSeq + 2) % 256, p2 + [0], true)]
    ensures counter == 2
  {
    var auth := new ClearPasswordAuth(packSeq);
    var out := new PacketOutput();
    var opts := Options(Multi([p1, p2]));
    auth.Start(out, opts, info);
    auth.Start(out, opts, info);
    sent, counter := out.sent, auth.counter;
    WrapSucc(packSeq + 1);
  }
}
