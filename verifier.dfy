/** Ocla::verify: the live identity of every instrument of every clock
    domain, and the type of every EIO block, against what the session
    recorded. */
module Verifier {
  import opened Bits
  import opened Eio
  import opened Topology
  import opened Hardware

  /** EIO_IP_TYPE_STRING. */
  const EioIpType: string := "EIO"

  function Mismatch(differs: bool): nat {
    if differs then 1 else 0
  }

  /** Every recorded identity field agrees with the live instrument. */
  ghost predicate Matches(inst: Instance, ip: OclaIp) {
    ip.ipType == inst.ipType && ip.version == inst.version && ip.id == inst.id &&
    ip.memoryDepth == inst.memoryDepth && ip.numProbes == inst.numProbes
  }

  /** The error count one instance contributes: a wrong type counts once and
      skips the other checks; otherwise one per differing field among
      version, id, memory depth and probe count. */
  function InstanceErrors(inst: Instance, ip: OclaIp): (n: nat)
    ensures ip.ipType != inst.ipType ==> n == 1
    ensures ip.ipType == inst.ipType ==>
              n == Mismatch(ip.version != inst.version) + Mismatch(ip.id != inst.id) +
                   Mismatch(ip.memoryDepth != inst.memoryDepth) + Mismatch(ip.numProbes != inst.numProbes)
    ensures n <= 4
    ensures n == 0 <==> Matches(inst, ip)
  {
    if ip.ipType != inst.ipType then 1
    else Mismatch(ip.version != inst.version) + Mismatch(ip.id != inst.id) +
         Mismatch(ip.memoryDepth != inst.memoryDepth) + Mismatch(ip.numProbes != inst.numProbes)
  }

  /** Error count over a list of instances, in list order. */
  function InstancesErrors(insts: seq<Instance>, dev: Devices): nat {
    if |insts| == 0 then 0
    else InstancesErrors(insts[..|insts| - 1], dev) + InstanceErrors(insts[|insts| - 1], OclaAt(dev, insts[|insts| - 1].baseaddr))
  }

  function DomainsErrors(ds: seq<Domain>, dev: Devices): nat {
    if |ds| == 0 then 0
    else DomainsErrors(ds[..|ds| - 1], dev) + InstancesErrors(ds[|ds| - 1].instances, dev)
  }

  /** An EIO block counts one error when its type is not "EIO". */
  function EiosErrors(eios: seq<EioInstance>, dev: Devices): nat {
    if |eios| == 0 then 0
    else EiosErrors(eios[..|eios| - 1], dev) + Mismatch(EioAt(dev, eios[|eios| - 1].baseaddr).ipType != EioIpType)
  }

  function SessionErrors(s: Session, dev: Devices): nat {
    DomainsErrors(s.domains, dev) + EiosErrors(s.eios, dev)
  }

  /** What verify returns: true exactly when no mismatch was counted. */
  predicate Verified(s: Session, dev: Devices) {
    SessionErrors(s, dev) == 0
  }

  lemma {:induction false} InstancesErrorsZero(insts: seq<Instance>, dev: Devices)
    ensures InstancesErrors(insts, dev) == 0 <==>
            forall i :: 0 <= i < |insts| ==> Matches(insts[i], OclaAt(dev, insts[i].baseaddr))
  {
    if |insts| > 0 {
      var init := insts[..|insts| - 1];
      InstancesErrorsZero(init, dev);
      assert forall i :: 0 <= i < |init| ==> init[i] == insts[i];
    }
  }

  lemma {:induction false} DomainsErrorsZero(ds: seq<Domain>, dev: Devices)
    ensures DomainsErrors(ds, dev) == 0 <==>
            forall k, i :: 0 <= k < |ds| && 0 <= i < |ds[k].instances| ==>
              Matches(ds[k].instances[i], OclaAt(dev, ds[k].instances[i].baseaddr))
  {
    if |ds| > 0 {
      var init := ds[..|ds| - 1];
      DomainsErrorsZero(init, dev);
      InstancesErrorsZero(ds[|ds| - 1].instances, dev);
      assert forall k :: 0 <= k < |init| ==> init[k] == ds[k];
    }
  }

  lemma {:induction false} EiosErrorsZero(eios: seq<EioInstance>, dev: Devices)
    ensures EiosErrors(eios, dev) == 0 <==> forall i :: 0 <= i < |eios| ==> EioAt(dev, eios[i].baseaddr).ipType == EioIpType
  {
    if |eios| > 0 {
      var init := eios[..|eios| - 1];
      EiosErrorsZero(init, dev);
      assert forall i :: 0 <= i < |init| ==> init[i] == eios[i];
    }
  }

  /** Verification succeeds exactly when every instrument of every domain
      matches its recorded identity in all five fields and every EIO block
      reports the EIO type. */
  lemma VerifiedIff(s: Session, dev: Devices)
    ensures Verified(s, dev) <==>
            (forall k, i :: 0 <= k < |s.domains| && 0 <= i < |s.domains[k].instances| ==>
               Matches(s.domains[k].instances[i], OclaAt(dev, s.domains[k].instances[i].baseaddr))) &&
            (forall i :: 0 <= i < |s.eios| ==> EioAt(dev, s.eios[i].baseaddr).ipType == EioIpType)
  {
    DomainsErrorsZero(s.domains, dev);
    EiosErrorsZero(s.eios, dev);
  }

  /** A single mismatching field of one instance is enough to fail the
      whole verification. */
  lemma OneMismatchFails(s: Session, dev: Devices, k: nat, i: nat)
    requires k < |s.domains| && i < |s.domains[k].instances|
    requires !Matches(s.domains[k].instances[i], OclaAt(dev, s.domains[k].instances[i].baseaddr))
    ensures !Verified(s, dev)
  {
    VerifiedIff(s, dev);
  }

  /** The count over a list is the sum of the per-instance counts, so one
      instance's mismatches never change what another contributes. */
  lemma {:induction false} InstancesErrorsAppend(a: seq<Instance>, b: seq<Instance>, dev: Devices)
    ensures InstancesErrors(a + b, dev) == InstancesErrors(a, dev) + InstancesErrors(b, dev)
    decreases |b|
  {
    if |b| > 0 {
      var b' := b[..|b| - 1];
      assert (a + b)[..|a + b| - 1] == a + b';
      InstancesErrorsAppend(a, b', dev);
    } else {
      assert a + b == a;
    }
  }
}
