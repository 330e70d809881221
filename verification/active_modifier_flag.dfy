/** One signed entry of the modifier flag list, and the counter it belongs to. */
module ActiveModifierFlags {
  import opened Types

  datatype FlagType =
    | Increase
    | Decrease
    | IncreaseLock
    | DecreaseLock
    | IncreaseLedLock
    | DecreaseLedLock
    | IncreaseSticky
    | DecreaseSticky
  {
    function Inverse(): FlagType {
      match this
      case Increase => Decrease
      case Decrease => Increase
      case IncreaseLock => DecreaseLock
      case DecreaseLock => IncreaseLock
      case IncreaseLedLock => DecreaseLedLock
      case DecreaseLedLock => IncreaseLedLock
      case IncreaseSticky => DecreaseSticky
      case DecreaseSticky => IncreaseSticky
    }
  }

  /** The four families of entries; opposite entries cancel only inside a family. */
  datatype FlagKind = Plain | Lock | LedLock | Sticky

  /** Identifies one signed counter. */
  datatype CounterKey = CounterKey(kind: FlagKind, flag: ModifierFlag, device: DeviceId)

  datatype ActiveFlag = ActiveFlag(ty: FlagType, flag: ModifierFlag, device: DeviceId)
  {
    function Count(): int {
      match ty
      case Increase | IncreaseLock | IncreaseLedLock | IncreaseSticky => 1
      case Decrease | DecreaseLock | DecreaseLedLock | DecreaseSticky => -1
    }

    predicate AnyLock() {
      ty.IncreaseLock? || ty.DecreaseLock? || ty.IncreaseLedLock? || ty.DecreaseLedLock?
    }

    predicate IsLedLock() {
      ty.IncreaseLedLock? || ty.DecreaseLedLock?
    }

    predicate IsSticky() {
      ty.IncreaseSticky? || ty.DecreaseSticky?
    }

    predicate IsPaired(other: ActiveFlag) {
      && ty == other.ty.Inverse()
      && flag == other.flag
      && device == other.device
    }

    /** What the constructor guarantees: LED entries are shared by all devices. */
    predicate Constructed() {
      IsLedLock() ==> device == 0
    }

    function Kind(): FlagKind {
      match ty
      case Increase | Decrease => Plain
      case IncreaseLock | DecreaseLock => Lock
      case IncreaseLedLock | DecreaseLedLock => LedLock
      case IncreaseSticky | DecreaseSticky => Sticky
    }

    function Key(): CounterKey {
      CounterKey(Kind(), flag, device)
    }

    /** The one entry this entry is paired with. */
    function Opposite(): ActiveFlag {
      ActiveFlag(ty.Inverse(), flag, device)
    }
  }

  /** The constructor of the source: LED entries lose their device. */
  function MakeActiveFlag(ty: FlagType, flag: ModifierFlag, device: DeviceId): (f: ActiveFlag)
    ensures f.Constructed() && f.ty == ty && f.flag == flag
    ensures !f.IsLedLock() ==> f.device == device
  {
    if ty.IncreaseLedLock? || ty.DecreaseLedLock? then ActiveFlag(ty, flag, 0) else ActiveFlag(ty, flag, device)
  }

  /** Pairing is exactly: same counter, opposite signs. */
  lemma PairedIffOpposite(f: ActiveFlag, g: ActiveFlag)
    ensures f.IsPaired(g) <==> f == g.Opposite()
    ensures f.IsPaired(g) <==> f.Key() == g.Key() && f.Count() == -g.Count()
    ensures f.IsPaired(g) <==> g.IsPaired(f)
  {
  }
}
