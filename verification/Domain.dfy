/** internal/domain/order.go, without timestamps. Every order modelled has status "confirmed". */
module Domain {

  datatype Order = Order(id: string, tenantID: string, eventID: string, quantity: int, sequence: nat)

  datatype Event = Event(sequence: nat, kind: string, orderID: string, tenantID: string)
}
