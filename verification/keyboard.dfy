/** The host keyboard layout: which host key codes stand for which of the
    sixteen CHIP-8 keys (app/class/Emulator.js, `keyToKeyboard`). */
module Keyboard {
  import opened Wrappers

  /** A CHIP-8 key, 0x0 to 0xF. */
  type Key = k: nat | k < 16

  /** The host key codes that the emulator recognises. */
  const HostKeys: set<int> := {49, 50, 51, 52, 81, 87, 69, 82, 65, 83, 68, 70, 90, 88, 67, 66}

  /** The host key code bound to each CHIP-8 key: the inverse of the layout. */
  function HostKey(k: Key): (code: int)
    ensures code in HostKeys
  {
    match k
    case 0x1 => 49   case 0x2 => 50   case 0x3 => 51   case 0xC => 52
    case 0x4 => 81   case 0x5 => 87   case 0x6 => 69   case 0xD => 82
    case 0x7 => 65   case 0x8 => 83   case 0x9 => 68   case 0xE => 70
    case 0xA => 90   case 0x0 => 88   case 0xB => 67   case 0xF => 66
  }

  /** Maps a host key code to the CHIP-8 key it stands for; every other code
      maps to `None` (the source returns `false`). */
  function KeyToKeyboard(code: int): (k: Option<Key>)
    ensures k.Some? <==> code in HostKeys
    ensures k.Some? ==> HostKey(k.value) == code
  {
    match code
    case 49 => Some(0x1)   case 50 => Some(0x2)   case 51 => Some(0x3)   case 52 => Some(0xC)
    case 81 => Some(0x4)   case 87 => Some(0x5)   case 69 => Some(0x6)   case 82 => Some(0xD)
    case 65 => Some(0x7)   case 83 => Some(0x8)   case 68 => Some(0x9)   case 70 => Some(0xE)
    case 90 => Some(0xA)   case 88 => Some(0x0)   case 67 => Some(0xB)   case 66 => Some(0xF)
    case _ => None
  }

  /** Every CHIP-8 key is reachable: the layout maps its host key back to it. */
  lemma KeyToKeyboardOnto(k: Key)
    ensures KeyToKeyboard(HostKey(k)) == Some(k)
  {
  }

  /** Two host codes that map to the same CHIP-8 key are the same code. */
  lemma KeyToKeyboardInjective(a: int, b: int)
    requires KeyToKeyboard(a).Some? && KeyToKeyboard(a) == KeyToKeyboard(b)
    ensures a == b
  {
    assert a == HostKey(KeyToKeyboard(a).value);
  }

  /** Exactly sixteen host codes are recognised. */
  lemma HostKeyCount()
    ensures |HostKeys| == 16
  {
    var keys := set k: Key | k < 16 :: HostKey(k);
    forall c | c in HostKeys ensures c in keys {
      var k := KeyToKeyboard(c).value;
      assert HostKey(k) == c;
    }
    assert keys <= HostKeys;
    assert HostKeys == keys;
    InjectiveImage(16);
  }

  /** The images of the first n keys are n distinct codes. */
  lemma {:induction false} InjectiveImage(n: nat)
    requires n <= 16
    ensures |set k: Key | k < n :: HostKey(k)| == n
  {
    if n > 0 {
      InjectiveImage(n - 1);
      var before := set k: Key | k < n - 1 :: HostKey(k);
      var now := set k: Key | k < n :: HostKey(k);
      assert now == before + {HostKey(n - 1)};
      assert HostKey(n - 1) !in before by {
        forall k: Key | k < n - 1 ensures HostKey(k) != HostKey(n - 1) {
          KeyToKeyboardOnto(k);
          KeyToKeyboardOnto(n - 1);
        }
      }
    }
  }
}
