/** The memory contract that authorizes every mapping, protection change and removal. */
module VmContract {
  import opened Layout

  const STORAGE_KEY_AUTO: nat := 0xFF
  const STORAGE_KEY_COUNT: nat := 16

  datatype Error = InvalidArg | AlignmentError | CapabilityInvalid | OutOfRange | InvalidAddress
                 | OutOfMemory | RegionOverlap | NotFound

  datatype Verdict = Granted | Refused(error: Error)

  datatype Prot = Prot(read: bool, write: bool, exec: bool)
  datatype Backing = Anonymous | Physical | PortalShared | File | IpcShared
  datatype Flags = Flags(portal: bool, ipc: bool, kernel: bool, stack: bool, cow: bool, sharedRead: bool, guard: bool,
      rest: nat)
  datatype Scope = Private | Nucleus | Shared

  /** A request, with the fields the decision depends on. */
  datatype Request = Request(start: nat, end: nat, phys: nat, length: nat, prot: Prot, key: nat, share: bool,
      scope: Scope)

  predicate IsPageAligned(x: nat) {
    x % PAGE_SIZE == 0
  }

  function ValidateRange(start: nat, end: nat): Verdict {
    if end == 0 || start >= end then Refused(InvalidArg)
    else if !IsPageAligned(start) || !IsPageAligned(end) then Refused(AlignmentError)
    else Granted
  }

  function ValidateKey(key: nat): Verdict {
    if key == STORAGE_KEY_AUTO then Granted
    else if key >= STORAGE_KEY_COUNT then Refused(OutOfRange)
    else Granted
  }

  function ValidateRequest(r: Request): Verdict {
    var range := ValidateRange(r.start, r.end);
    if range.Refused? then range
    else if r.length == 0 || r.length != r.end - r.start then Refused(InvalidArg)
    else if r.prot.exec && r.prot.write then Refused(CapabilityInvalid)
    else if r.phys != 0 && !IsPageAligned(r.phys) then Refused(AlignmentError)
    else ValidateKey(r.key)
  }

  /** authorize_mapping; authorize_protect and authorize_unmap decide the same way. */
  function Authorize(r: Request): Verdict {
    var valid := ValidateRequest(r);
    if valid.Refused? then valid
    else if r.scope == Shared && !r.share then Refused(CapabilityInvalid)
    else Granted
  }

  predicate IsShared(flags: Flags, backing: Backing) {
    flags.portal || flags.ipc || backing == PortalShared || backing == IpcShared
  }

  /** dgp_scope_from_vm */
  function ScopeOf(flags: Flags, backing: Backing): Scope {
    if flags.kernel then Nucleus else if IsShared(flags, backing) then Shared else Private
  }

  /** build_contract_request; the end wraps at 64 bits. */
  function BuildRequest(spaceKey: nat, start: nat, length: nat, prot: Prot, flags: Flags, backing: Backing, phys: nat,
                        key: nat): Request {
    Request(start, (start + length) % TWO64, phys, length, prot, if key == 0 then spaceKey else key,
            IsShared(flags, backing), ScopeOf(flags, backing))
  }

  /** What a request must satisfy, said at once: requests built for a mapping are never refused for their scope. */
  lemma AuthorizeExact(spaceKey: nat, start: nat, length: nat, prot: Prot, flags: Flags, backing: Backing, phys: nat,
                       key: nat)
    requires start < TWO64 && length < TWO64
    ensures var k := if key == 0 then spaceKey else key;
            Authorize(BuildRequest(spaceKey, start, length, prot, flags, backing, phys, key)).Granted? <==>
              && start + length < TWO64 && length > 0 && IsPageAligned(start) && IsPageAligned(start + length)
              && !(prot.write && prot.exec) && (phys == 0 || IsPageAligned(phys))
              && (k == STORAGE_KEY_AUTO || k < STORAGE_KEY_COUNT)
  {
    var end := (start + length) % TWO64;
    if start + length >= TWO64 {
      assert end == start + length - TWO64 < start || (end == 0);
    } else {
      assert end == start + length;
    }
  }
}
