/** Sizes, flags and records of the kernel
    (software/Femtiki/source/inc/config.h, const.h and types.h). */
module KernelTypes {

  const NR_TCB := 256
  const NR_MSG := 512
  const NR_MBX := 1024
  const NR_ACB := 32
  const LEVELS := 32
  const MAX_UINT := 0xFFFF_FFFF

  type u32 = x: int | 0 <= x < 0x1_0000_0000

  /** The TS_* bits of the status byte, one boolean a bit. */
  datatype Status = Status(timeout: bool, waitmsg: bool, preempt: bool, running: bool, ready: bool)

  const TS_NONE := Status(false, false, false, false, false)

  datatype Payload = Payload(d1: u32, d2: u32, d3: u32)

  const NO_PAYLOAD := Payload(0, 0, 0)

  datatype Strategy = MQS_UNLIMITED | MQS_OLDEST | MQS_NEWEST

  datatype MsgType = MT_NONE | MT_FREE | MT_DATA

  /** A message block. */
  datatype Msg = Msg(link: int, typ: MsgType, body: Payload)

  /** What a thread control block says besides its list links and timeout. */
  datatype Thread = Thread(status: Status, priority: nat, affinity: int, waitMbx: int,
                           msgType: MsgType, msg: Payload)

  /** A thread control block. */
  datatype Tcb = Tcb(next: int, prev: int, mbqNext: int, mbqPrev: int, timeout: int, info: Thread)

  /** A mailbox. */
  datatype Mbx = Mbx(link: int, owner: int, tqHead: int, tqTail: int, mqHead: int, mqTail: int,
                     strategy: Strategy, tqCount: int, mqSize: nat, mqCount: nat, mqMissed: nat)

  datatype Error = E_Ok | E_BadPriority | E_Arg | E_QueFull | E_NoThread | E_NotAlloc | E_NoMsg
                 | E_NotOwner | E_NoMoreMbx | E_NoMoreMsgBlks | E_NoMoreTCBs

  predicate IsTcb(h: int) {
    1 <= h <= NR_TCB
  }

  predicate IsMbx(h: int) {
    1 <= h <= NR_MBX
  }

  predicate IsMsg(h: int) {
    1 <= h <= NR_MSG
  }
}
