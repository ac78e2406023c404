/** The 64-bit user_data tags that identify a completion: the descriptor above two bits of
    operation type, and the accept tag, which is shifted by one bit only. */
module Tags {
  import opened Bits

  // One past the largest descriptor an `int` holds.
  const FD_LIMIT: nat := 0x8000_0000

  const RECV: nat := 0
  const SEND: nat := 1
  const POLL_IN: nat := 2
  const POLL_OUT: nat := 3

  function TagAccept(listenFd: nat): nat { (listenFd * 2) % WORD }

  function TagData(fd: nat, kind: nat): nat { Or((fd * 4) % WORD, kind) }

  /** `int(t >> 2)`: the low 32 bits, read as a signed number. */
  function FdOf(t: nat): int {
    var low := (t / 4) % (2 * FD_LIMIT);
    if low < FD_LIMIT then low else low - 2 * FD_LIMIT
  }

  function KindOf(t: nat): nat { And(t, 3) }

  lemma TagDataValue(fd: nat, kind: nat)
    requires fd < FD_LIMIT && kind < 4
    ensures TagData(fd, kind) == 4 * fd + kind
  {
    Pow2Values();
    OrLow(fd, kind, 2);
    assert (fd * 4) % WORD == fd * 4 == fd * Pow2(2);
  }

  /** The tags as numbers: the descriptor times four and 0 to 3 for a receive, a send, and polls for input
      and for output; and the listening descriptor times two. */
  lemma TagsAre(fd: nat)
    requires fd < FD_LIMIT
    ensures TagData(fd, RECV) == 4 * fd && TagData(fd, SEND) == 4 * fd + 1
    ensures TagData(fd, POLL_IN) == 4 * fd + 2 && TagData(fd, POLL_OUT) == 4 * fd + 3
    ensures TagAccept(fd) == 2 * fd
  {
    TagDataValue(fd, RECV);
    TagDataValue(fd, SEND);
    TagDataValue(fd, POLL_IN);
    TagDataValue(fd, POLL_OUT);
  }

  /** Decoding a data tag gives back its descriptor and its kind. */
  lemma DecodeData(fd: nat, kind: nat)
    requires fd < FD_LIMIT && kind < 4
    ensures FdOf(TagData(fd, kind)) == fd && KindOf(TagData(fd, kind)) == kind
  {
    hide TagData;
    TagDataValue(fd, kind);
    Pow2Values();
    AndMask(TagData(fd, kind), 2);
  }

  /** No two data tags of different operations or descriptors are equal. */
  lemma DataTagsInjective(fd: nat, kind: nat, fd': nat, kind': nat)
    requires fd < FD_LIMIT && fd' < FD_LIMIT && kind < 4 && kind' < 4
    ensures TagData(fd, kind) == TagData(fd', kind') <==> fd == fd' && kind == kind'
  {
    DecodeData(fd, kind);
    DecodeData(fd', kind');
  }

  /** The accept tag is a data tag exactly when the listening descriptor is even and the
      other operation is a receive on half of it, or odd and it is a read poll on half of it. */
  lemma AcceptCollision(listenFd: nat, fd: nat, kind: nat)
    requires listenFd < FD_LIMIT && fd < FD_LIMIT && kind < 4
    ensures TagAccept(listenFd) == TagData(fd, kind) <==>
            || (listenFd % 2 == 0 && kind == RECV && fd == listenFd / 2)
            || (listenFd % 2 == 1 && kind == POLL_IN && fd == (listenFd - 1) / 2)
  {
    TagDataValue(fd, kind);
  }
}
