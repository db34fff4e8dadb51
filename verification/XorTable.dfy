/** The receiving side's table of XOR batches, kept and updated in place. */
module XorTable {
  import opened Common
  import opened BatchWindow
  import opened XorFec
  import opened Wire

  /** Batches are told apart by batch and session. */
  type Key = (nat, nat)

  class InboundBatch {
    const product: array<byte>
    var parity: Option<Block>
    const batchSize: nat
    var received: nat
    var mask: set<nat>
    const createdAt: nat
    var base: Base

    ghost predicate Valid() { product.Length == BLOCK }

    ghost function View(): Inbound
      reads this, product
      requires Valid()
    {
      Inbound(product[..], parity, batchSize, received, mask, createdAt, base)
    }

    constructor (batchSize: nat, now: nat)
      ensures Valid() && fresh(product)
      ensures View() == NewInbound(batchSize, now)
    {
      var zero := new byte[BLOCK](_ => 0);
      product, parity, this.batchSize, received, mask, createdAt, base := zero, None, batchSize, 0, {}, now, UNKNOWN;
      new;
      assert product[..] == ZERO;
    }

    /** Folds a data block in unless its index was seen or the batch is full. */
    method Add(index: nat, data: Block) returns (added: bool)
      requires Valid()
      modifies this, product
      ensures View() == AddData(old(View()), index, data)
      ensures added <==> View() != old(View())
      ensures added <==> old(received) < batchSize && index !in old(mask)
    {
      if received < batchSize && index !in mask {
        base := Track(base, index, DecodeInt(data[..4]));
        mask := mask + {index};
        XorAssign(product, data);
        received := received + 1;
        return true;
      }
      return false;
    }

    method AddParityBlock(data: Block) returns (added: bool)
      requires Valid()
      modifies this
      ensures View() == AddParity(old(View()), data)
      ensures added <==> old(parity).None?
    {
      if parity.Some? {
        return false;
      }
      parity := Some(data);
      return true;
    }

    method Accept(packet: Arrival, data: Block) returns (ready: bool)
      requires Valid()
      modifies this, product
      ensures View() ==
              if packet.Parity? then AddParity(old(View()), data) else AddData(old(View()), packet.index, data)
      ensures ready == Ready(View())
    {
      if packet.Parity? {
        var _ := AddParityBlock(data);
      } else {
        var _ := Add(packet.index, data);
      }
      ready := received == batchSize - 1 && parity.Some?;
    }

    function Missing(): (r: seq<nat>)
      reads this, product
      requires Valid()
      ensures r == MissingPositions(View())
    {
      if base.at.None? || !base.contiguous then [] else MissingFrom(mask, base.at.value, 0, batchSize)
    }

    method Recover() returns (data: Option<Block>)
      requires Valid()
      ensures data == Recovered(View())
    {
      if received == batchSize - 1 && parity.Some? {
        return Some(Xor(product[..], parity.value));
      }
      return None;
    }
  }

  /** The batch at `key` after one packet of it. */
  ghost function Updated(table: map<Key, Inbound>, key: Key, batchSize: nat, packet: Arrival, data: Block,
      now: nat): Inbound {
    var b := if key in table then table[key] else NewInbound(batchSize, now);
    if packet.Parity? then AddParity(b, data) else AddData(b, packet.index, data)
  }

  class XorInbound {
    var inbound: map<Key, InboundBatch>

    ghost predicate Valid()
      reads this, inbound.Values
    {
      && (forall k :: k in inbound ==> inbound[k].Valid())
      && (forall j, k :: j in inbound && k in inbound && j != k ==>
        inbound[j] != inbound[k] && inbound[j].product != inbound[k].product)
    }

    ghost function View(): map<Key, Inbound>
      reads this, inbound.Values, set b | b in inbound.Values :: b.product
      requires Valid()
    {
      map k | k in inbound :: inbound[k].View()
    }

    constructor ()
      ensures Valid() && View() == map[]
    {
      inbound := map[];
    }

    /** The batch at `key`, made on first sight. */
    method Lookup(key: Key, batchSize: nat, now: nat) returns (entry: InboundBatch)
      requires Valid()
      modifies this
      ensures Valid() && key in inbound && inbound[key] == entry
      ensures inbound == old(inbound)[key := entry]
      ensures if key in old(inbound) then entry == old(inbound)[key] else fresh(entry) && fresh(entry.product)
      ensures key !in old(inbound) ==> entry.View() == NewInbound(batchSize, now)
    {
      if key !in inbound {
        var b := new InboundBatch(batchSize, now);
        inbound := inbound[key := b];
      }
      entry := inbound[key];
    }

    /** Adds one packet to its batch, made on first sight; says whether the batch can now be recovered. */
    method Received(key: Key, batchSize: nat, packet: Arrival, data: Block, now: nat) returns (ready: bool)
      requires Valid()
      modifies this, inbound.Values, set b | b in inbound.Values :: b.product
      ensures Valid()
      ensures inbound.Keys == old(inbound.Keys) + {key}
      ensures inbound[key].View() == Updated(old(View()), key, batchSize, packet, data, now)
      ensures forall k :: k in old(inbound) && k != key ==> inbound[k].View() == old(inbound[k].View())
      ensures ready == Ready(inbound[key].View())
      ensures inbound[key].createdAt == if key in old(inbound) then old(inbound[key].createdAt) else now
      ensures inbound[key].batchSize == if key in old(inbound) then old(inbound[key].batchSize) else batchSize
    {
      ghost var was := View();
      var entry := Lookup(key, batchSize, now);
      assert key in old(inbound) ==> entry in old(inbound.Values);
      assert entry.View() == if key in was then was[key] else NewInbound(batchSize, now);
      ready := entry.Accept(packet, data);
    }

    /** Takes a batch out of the table and recovers its missing packet, if it can. */
    method RecoverBatch(key: Key) returns (packet: Option<(nat, seq<byte>)>)
      requires Valid()
      modifies this
      ensures Valid() && View() == old(View()) - {key}
      ensures packet ==
              if key in old(View()) && Recovered(old(View())[key]).Some?
              then Some(Unpacked(Recovered(old(View())[key]).value))
              else None
    {
      if key !in inbound {
        return None;
      }
      var entry := inbound[key];
      inbound := inbound - {key};
      var data := entry.Recover();
      return if data.Some? then Some(Unpacked(data.value)) else None;
    }

    /** Drops every batch older than `ttl` and lists the chunks each one still lacked. */
    method Prune(ttl: nat, now: nat) returns (out: map<Key, seq<nat>>)
      requires Valid()
      modifies this
      ensures Valid()
      ensures View() == map k | k in old(View()) && !Expired(old(View())[k].createdAt, now, ttl) :: old(View())[k]
      ensures out ==
              map k | k in old(View()) && Expired(old(View())[k].createdAt, now, ttl) ::
                MissingPositions(old(View())[k])
    {
      var expired := set k | k in inbound && Expired(inbound[k].createdAt, now, ttl);
      out := map k | k in expired :: inbound[k].Missing();
      inbound := inbound - expired;
    }
  }
}
