/** The literals of `CardConstant`. */
module CardConstant {

  const CREDIT_CARD: string := "Credit Card"
  const NEW_CARD_LIMIT: int := 100000
  const STATUS_201: string := "201"
  const MESSAGE_201: string := "Card created successfully"
  const STATUS_200: string := "200"
  const MESSAGE_200: string := "Request processed successfully"
  const STATUS_417: string := "417"
  const MESSAGE_417_UPDATE: string := "Update operation failed. Please try again or contact Dev team"
  const MESSAGE_417_DELETE: string := "Delete operation failed. Please try again or contact Dev team"
}
