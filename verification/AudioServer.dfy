/**
 The stream table of citcaudio: clients open, feed and close streams, the timer mixes a period from
 every stream that has one, and clients come and go in slots that are reused.
 */
module AudioServer {
  import opened Mixer
  import opened Ring

  const MAX_CLIENTS: nat := 4
  const MAX_STREAMS: nat := 8
  const PERIOD_SAMPLES: nat := 441 * 2
  const PERIOD: nat := PERIOD_SAMPLES * 2

  class Server {
    const rings: seq<RingBuffer>
    var active: seq<bool>
    var owner: seq<int>
    var connected: seq<bool>
    /** Per stream since it was opened: bytes taken from its owner, bytes mixed, bytes in its ring. */
    ghost var accepted: seq<seq<Byte>>
    ghost var mixed: seq<seq<Byte>>
    ghost var queued: seq<seq<Byte>>

    ghost function Buffers(): set<object>
    {
      (set k | 0 <= k < |rings| :: rings[k] as object) + (set k | 0 <= k < |rings| :: rings[k].data as object)
    }

    ghost predicate Shape()
      reads this
    {
      && |rings| == |active| == |owner| == |accepted| == |mixed| == |queued| == MAX_STREAMS
      && |connected| == MAX_CLIENTS
      && forall i, j | 0 <= i < j < |rings| :: rings[i] != rings[j] && rings[i].data != rings[j].data
    }

    /** Bytes mixed and bytes queued are the bytes accepted, and the owner is connected. */
    ghost predicate StreamOk(i: nat)
      reads this, Buffers()
      requires Shape() && i < MAX_STREAMS
    {
      && rings[i].Valid() && rings[i].contents == queued[i]
      && (active[i] ==> 0 <= owner[i] < MAX_CLIENTS && connected[owner[i]] && mixed[i] + queued[i] == accepted[i])
    }

    ghost predicate Valid()
      reads this, Buffers()
    {
      Shape() && forall i: nat | i < MAX_STREAMS :: StreamOk(i)
    }

    constructor (rs: seq<RingBuffer>)
      requires |rs| == MAX_STREAMS && forall i | 0 <= i < |rs| :: rs[i].Valid() && rs[i].contents == []
      requires forall i, j | 0 <= i < j < |rs| :: rs[i] != rs[j] && rs[i].data != rs[j].data
      ensures Valid() && rings == rs
      ensures forall i | 0 <= i < MAX_STREAMS :: !active[i]
      ensures forall i | 0 <= i < MAX_CLIENTS :: !connected[i]
    {
      rings := rs;
      active := seq(MAX_STREAMS, _ => false);
      owner := seq(MAX_STREAMS, _ => 0);
      connected := seq(MAX_CLIENTS, _ => false);
      accepted := seq(MAX_STREAMS, _ => []);
      mixed := seq(MAX_STREAMS, _ => []);
      queued := seq(MAX_STREAMS, _ => []);
    }

    /** A new connection: the first free slot, to which no open stream belongs. */
    method Accept() returns (idx: int)
      requires Valid()
      modifies this`connected
      ensures Valid()
      ensures idx < 0 ==> connected == old(connected) && forall k | 0 <= k < MAX_CLIENTS :: connected[k]
      ensures idx >= 0 ==> idx < MAX_CLIENTS && !old(connected)[idx] && connected == old(connected)[idx := true]
      ensures idx >= 0 ==> forall i | 0 <= i < MAX_STREAMS && active[i] :: owner[i] != idx
    {
      idx := 0;
      while idx < MAX_CLIENTS && connected[idx]
        invariant 0 <= idx <= MAX_CLIENTS
        invariant forall k | 0 <= k < idx :: connected[k]
      {
        idx := idx + 1;
      }
      if idx == MAX_CLIENTS {
        return -1;
      }
      assert forall i: nat | i < MAX_STREAMS && active[i] :: StreamOk(i);
      connected := connected[idx := true];
      assert forall i: nat | i < MAX_STREAMS :: old(StreamOk(i)) ==> StreamOk(i);
    }

    method RemoveClient(idx: nat)
      requires Valid() && idx < MAX_CLIENTS
      modifies this`connected, this`active
      ensures Valid() && connected == old(connected)[idx := false]
      ensures forall i | 0 <= i < MAX_STREAMS :: active[i] == (old(active)[i] && old(owner)[i] != idx)
    {
      connected := connected[idx := false];
      for i := 0 to MAX_STREAMS
        invariant |active| == MAX_STREAMS && connected == old(connected)[idx := false]
        invariant forall k | 0 <= k < i :: active[k] == (old(active)[k] && owner[k] != idx)
        invariant forall k | i <= k < MAX_STREAMS :: active[k] == old(active)[k]
      {
        if active[i] && owner[i] == idx {
          active := active[i := false];
        }
      }
      assert forall i: nat | i < MAX_STREAMS :: old(StreamOk(i)) ==> StreamOk(i);
    }

    /** Opens the first free stream for a connected client; id 0 means that there is none. */
    method OpenStream(client: nat) returns (id: nat)
      requires Valid() && client < MAX_CLIENTS && connected[client]
      modifies this`active, this`owner, this`accepted, this`mixed, this`queued, Buffers()
      ensures Valid()
      ensures id == 0 <==> forall k | 0 <= k < MAX_STREAMS :: old(active)[k]
      ensures id == 0 ==> active == old(active) && owner == old(owner) && accepted == old(accepted) && mixed == old(mixed) && queued == old(queued)
      ensures id > 0 ==>
        var s := id - 1;
        && s < MAX_STREAMS && !old(active)[s] && (forall k | 0 <= k < s :: old(active)[k])
        && active == old(active)[s := true] && owner == old(owner)[s := client]
        && accepted == old(accepted)[s := []] && mixed == old(mixed)[s := []] && queued == old(queued)[s := []]
    {
      hide RingBuffer.Valid;
      var s := 0;
      while s < MAX_STREAMS && active[s]
        invariant 0 <= s <= MAX_STREAMS
        invariant forall k | 0 <= k < s :: active[k]
      {
        s := s + 1;
      }
      if s == MAX_STREAMS {
        return 0;
      }
      assert StreamOk(s);
      rings[s].Reset();
      active := active[s := true];
      owner := owner[s := client];
      accepted := accepted[s := []];
      mixed := mixed[s := []];
      queued := queued[s := []];
      assert forall i: nat | i < MAX_STREAMS && i != s :: old(StreamOk(i)) ==> StreamOk(i);
      return s + 1;
    }

    /** The bytes that a WRITE request offers: as many as it announces and carries. */
    static function Offered(pcmSize: nat, payload: seq<Byte>): (r: seq<Byte>)
      ensures r <= payload && |r| <= pcmSize && (|r| < |payload| ==> |r| == pcmSize)
    {
      if pcmSize < |payload| then payload[..pcmSize] else payload
    }

    /** Accepted are the bytes of the stream's owner, all or none, when they fit the ring. */
    method WriteStream(client: nat, id: nat, pcmSize: nat, payload: seq<Byte>) returns (taken: bool)
      requires Valid() && client < MAX_CLIENTS
      modifies this`accepted, this`queued, Buffers()
      ensures Valid()
      ensures
        var pcm := Offered(pcmSize, payload);
        && taken == (0 < id <= MAX_STREAMS && active[id - 1] && owner[id - 1] == client
                     && pcm != [] && |old(queued)[id - 1]| + |pcm| <= RING_SIZE)
        && (taken ==> accepted == old(accepted)[id - 1 := old(accepted)[id - 1] + pcm])
        && (taken ==> queued == old(queued)[id - 1 := old(queued)[id - 1] + pcm])
        && (!taken ==> accepted == old(accepted) && queued == old(queued))
    {
      hide RingBuffer.Valid;
      if id == 0 || id > MAX_STREAMS {
        return false;
      }
      var s := id - 1;
      if !active[s] || owner[s] != client {
        return false;
      }
      assert StreamOk(s);
      var pcm := Offered(pcmSize, payload);
      var free := rings[s].Free();
      if |pcm| > 0 && free >= |pcm| {
        var ok := rings[s].Write(pcm);
        accepted := accepted[s := accepted[s] + pcm];
        queued := queued[s := queued[s] + pcm];
        assert mixed[s] + (old(queued)[s] + pcm) == mixed[s] + old(queued)[s] + pcm;
        assert forall i: nat | i < MAX_STREAMS && i != s :: old(StreamOk(i)) ==> StreamOk(i);
        return true;
      }
      return false;
    }

    method CloseStream(client: nat, id: nat)
      requires Valid()
      modifies this`active
      ensures Valid()
      ensures active ==
        if 0 < id <= MAX_STREAMS && old(active)[id - 1] && owner[id - 1] == client then old(active)[id - 1 := false] else old(active)
    {
      if id == 0 || id > MAX_STREAMS {
        return;
      }
      if active[id - 1] && owner[id - 1] == client {
        active := active[id - 1 := false];
      }
      assert forall i: nat | i < MAX_STREAMS :: old(StreamOk(i)) ==> StreamOk(i);
    }

    // ---------------------------------------------------------------- mixing

    /** One stream's period is added to the mix buffer with saturation. */
    static method AddPeriod(mix: array<int>, tmp: seq<Byte>, ghost ps: seq<seq<Byte>>)
      requires mix.Length == PERIOD_SAMPLES
      requires forall j: nat | j < PERIOD_SAMPLES :: mix[j] == Mixed(Column(ps, j))
      modifies mix
      ensures forall j: nat | j < PERIOD_SAMPLES :: mix[j] == Mixed(Column(ps + [tmp], j))
    {
      hide Mixed, Column, SampleAt;
      for j := 0 to PERIOD_SAMPLES
        invariant forall k: nat | k < j :: mix[k] == Mixed(Column(ps + [tmp], k))
        invariant forall k: nat | j <= k < PERIOD_SAMPLES :: mix[k] == Mixed(Column(ps, k))
      {
        MixedNext(ps, tmp, j);
        var sum := mix[j] + SampleAt(tmp, j);
        if sum > 32767 {
          sum := 32767;
        }
        if sum < -32768 {
          sum := -32768;
        }
        mix[j] := sum;
      }
    }

    /** The loop body of do_mix. */
    method MixOne(i: nat, mix: array<int>, ghost ps: seq<seq<Byte>>) returns (gave: bool)
      requires Valid() && i < MAX_STREAMS && mix !in Buffers()
      requires mix.Length == PERIOD_SAMPLES && forall j: nat | j < PERIOD_SAMPLES :: mix[j] == Mixed(Column(ps, j))
      modifies this`mixed, this`queued, Buffers(), mix
      ensures Valid() && gave == Ready(active, old(queued), i)
      ensures gave ==> mixed == old(mixed)[i := old(mixed)[i] + old(queued)[i][..PERIOD]]
      ensures gave ==> queued == old(queued)[i := old(queued)[i][PERIOD..]]
      ensures !gave ==> mixed == old(mixed) && queued == old(queued)
      ensures forall j: nat | j < PERIOD_SAMPLES ::
        mix[j] == Mixed(Column(if gave then ps + [old(queued)[i][..PERIOD]] else ps, j))
    {
      hide RingBuffer.Valid, Mixed, Column;
      assert StreamOk(i);
      if !active[i] {
        return false;
      }
      var available := rings[i].Available();
      if available < PERIOD {
        return false;
      }
      var ok, tmp := rings[i].Read(PERIOD);
      AddPeriod(mix, tmp, ps);
      mixed := mixed[i := mixed[i] + tmp];
      queued := queued[i := queued[i][PERIOD..]];
      assert mixed[i] + queued[i] == old(mixed)[i] + old(queued)[i];
      assert forall k: nat | k < MAX_STREAMS && k != i :: old(StreamOk(k)) ==> StreamOk(k);
      return true;
    }

    /**
     do_mix: every ready stream gives exactly one period, the others lose nothing, and each sample
     of the result is the slot-order saturating sum of the periods given.
     */
    method Mix() returns (any: bool, out: seq<int>)
      requires Valid()
      modifies this`mixed, this`queued, Buffers()
      ensures Valid()
      ensures |out| == PERIOD_SAMPLES
      ensures forall j: nat | j < PERIOD_SAMPLES :: out[j] == Mixed(Column(Periods(active, old(queued), MAX_STREAMS), j))
      ensures any == exists i: nat | i < MAX_STREAMS :: Ready(active, old(queued), i)
      ensures forall i: nat | i < MAX_STREAMS :: Gave(active, old(mixed), old(queued), mixed, queued, i)
    {
      hide Mixed, Column, StreamOk, Ready, Periods;
      var mix := new int[PERIOD_SAMPLES](_ => 0);
      any := false;
      ghost var q0, m0 := queued, mixed;
      ghost var ps: seq<seq<Byte>> := [];
      Silence(active, q0);
      for i := 0 to MAX_STREAMS
        invariant Valid() && mix !in Buffers()
        invariant ps == Periods(active, q0, i)
        invariant forall j: nat | j < PERIOD_SAMPLES :: mix[j] == Mixed(Column(ps, j))
        invariant any == exists k: nat | k < i :: Ready(active, q0, k)
        invariant forall k: nat | k < i :: Gave(active, m0, q0, mixed, queued, k)
        invariant forall k: nat | i <= k < MAX_STREAMS :: mixed[k] == m0[k] && queued[k] == q0[k]
      {
        ReadyLooksAt(active, q0, queued, i);
        PeriodsNext(active, q0, i);
        ghost var m1, q1 := mixed, queued;
        var gave := MixOne(i, mix, ps);
        forall k: nat | k <= i
          ensures Gave(active, m0, q0, mixed, queued, k)
        {
          assert k < i ==> Gave(active, m0, q0, m1, q1, k) && mixed[k] == m1[k] && queued[k] == q1[k];
        }
        if gave {
          ps := ps + [q0[i][..PERIOD]];
          any := true;
        }
      }
      out := mix[..];
    }
  }

  // ---------------------------------------------------------------- what a mix takes

  /** Whether stream `i` has a whole period to give. */
  predicate Ready(active: seq<bool>, queued: seq<seq<Byte>>, i: nat)
  {
    i < |active| && i < |queued| && active[i] && |queued[i]| >= PERIOD
  }

  /** The periods that the first `n` streams contribute, in slot order. */
  function Periods(active: seq<bool>, queued: seq<seq<Byte>>, n: nat): seq<seq<Byte>>
  {
    if n == 0 then []
    else if Ready(active, queued, n - 1) then Periods(active, queued, n - 1) + [queued[n - 1][..PERIOD]]
    else Periods(active, queued, n - 1)
  }

  /** A ready stream gives its oldest period to the mix; any other keeps everything. */
  predicate Gave(active: seq<bool>, m0: seq<seq<Byte>>, q0: seq<seq<Byte>>, m: seq<seq<Byte>>, q: seq<seq<Byte>>, i: nat)
  {
    && i < |m0| && i < |q0| && i < |m| && i < |q|
    && if Ready(active, q0, i) then |q0[i]| >= PERIOD && m[i] == m0[i] + q0[i][..PERIOD] && q[i] == q0[i][PERIOD..]
       else m[i] == m0[i] && q[i] == q0[i]
  }

  /** `n` mixes in a row, of which the states of stream `i` are `m` and `q`, with nothing written in between. */
  ghost predicate Mixes(active: seq<bool>, m: seq<seq<seq<Byte>>>, q: seq<seq<seq<Byte>>>, i: nat, n: nat)
  {
    |m| > n && |q| > n && i < |active| && i < |m[0]| && i < |q[0]| && forall k: nat | k < n :: Gave(active, m[k], q[k], m[k + 1], q[k + 1], i)
  }

  /** What `n` mixes take from an open stream that holds `size` bytes: a period each while whole periods last. */
  function Taken(size: nat, n: nat): (r: nat)
    ensures r <= size && r <= n * PERIOD && r % PERIOD == 0 && (r < n * PERIOD ==> size < r + PERIOD)
  {
    if n == 0 then 0 else
    var t := Taken(size, n - 1);
    if t + PERIOD <= size then t + PERIOD else t
  }

  /** A run of mixes plays a stream's bytes in order, a period each, until less than a period is left. */
  lemma {:induction false} PlayedInOrder(active: seq<bool>, m: seq<seq<seq<Byte>>>, q: seq<seq<seq<Byte>>>, i: nat, n: nat)
    requires Mixes(active, m, q, i, n)
    ensures i < |m[n]| && i < |q[n]|
    ensures var t := if active[i] then Taken(|q[0][i]|, n) else 0;
      m[n][i] == m[0][i] + q[0][i][..t] && q[n][i] == q[0][i][t..]
  {
    if n > 0 {
      PlayedInOrder(active, m, q, i, n - 1);
      assert Gave(active, m[n - 1], q[n - 1], m[n], q[n], i);
      var t := if active[i] then Taken(|q[0][i]|, n - 1) else 0;
      if Ready(active, q[n - 1], i) {
        assert q[0][i][t..][..PERIOD] == q[0][i][t..t + PERIOD];
        assert q[0][i][..t] + q[0][i][t..t + PERIOD] == q[0][i][..t + PERIOD];
      }
    }
  }

  lemma ReadyLooksAt(active: seq<bool>, q0: seq<seq<Byte>>, q: seq<seq<Byte>>, i: nat)
    requires i < |q0| && i < |q| && q0[i] == q[i]
    ensures Ready(active, q0, i) == Ready(active, q, i)
    ensures Ready(active, q0, i) ==> |q0[i]| >= PERIOD
  {
  }

  lemma PeriodsNext(active: seq<bool>, q: seq<seq<Byte>>, i: nat)
    ensures Periods(active, q, i + 1) ==
      if Ready(active, q, i) then Periods(active, q, i) + [q[i][..PERIOD]] else Periods(active, q, i)
  {
  }

  lemma Silence(active: seq<bool>, q: seq<seq<Byte>>)
    ensures Periods(active, q, 0) == [] && forall j: nat :: Mixed(Column([], j)) == 0
  {
  }
}
