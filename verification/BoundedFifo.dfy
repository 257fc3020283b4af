/** The abstract mailbox queue: first in, first out, bounded, and closable. */
module BoundedFifo {
  type Message = nat

  /** `held` says that the message last popped still occupies its slot. */
  datatype Fifo = Fifo(capacity: nat, contents: seq<Message>, held: bool, closed: bool) {

    function Occupied(): nat { |contents| + if held then 1 else 0 }

    predicate HasRoom() { Occupied() < capacity }

    function Push(m: Message): Fifo { this.(contents := contents + [m]) }

    function Pop(): Fifo
      requires contents != []
    {
      this.(contents := contents[1..], held := true)
    }

    function Release(): Fifo { this.(held := false) }

    function Close(): Fifo { this.(closed := true) }
  }
}
