/** The request and response records of domain/entities/entity.go. */
module Entities {

  /** One inventory line: a product name and how many of it the user owns. */
  datatype ItemResponse = ItemResponse(itemType: string, quantity: int)

  /** One incoming transfer, seen from the receiver. */
  datatype ReceivedResponse = ReceivedResponse(fromUser: string, amount: int)

  /** One outgoing transfer, seen from the sender. */
  datatype SentResponse = SentResponse(toUser: string, amount: int)

  datatype CoinHistoryResponse = CoinHistoryResponse(received: seq<ReceivedResponse>, sent: seq<SentResponse>)

  /** The `/api/info` view: balance, inventory and coin history. */
  datatype InfoResponse = InfoResponse(coins: int, inventory: seq<ItemResponse>, coinHistory: CoinHistoryResponse)

  /** The decoded `/api/sendCoin` body (a distinct named type over the fields of `SentResponse`). */
  datatype SendCoinRequest = SendCoinRequest(toUser: string, amount: int)

  /** The decoded `/api/auth` body. */
  datatype AuthRequest = AuthRequest(username: string, password: string)
}
