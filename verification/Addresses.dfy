/** Node addresses, which the ring, the gossip and the quorum layer share. */
module Addresses {
  type Addr = string
}
