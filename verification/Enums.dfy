/** The enumerations of the records. All are scoped enumerations without an explicit underlying type, so each holds
    any int, named or not; MQL_DECLARE_ENUM_SERIALIZE transfers that int. */
module Enums {
  import opened Bytes

  type EnumAccountTradeMode = Int32
  type EnumAccountStopOutMode = Int32
  type EnumAccountMarginMode = Int32
  type EnumOrderType = Int32
  type EnumOrderState = Int32
  type EnumOrderTypeFilling = Int32
  type EnumOrderTypeTime = Int32
  type EnumOrderReason = Int32
  type EnumPositionType = Int32
  type EnumPositionReason = Int32
  type EnumDealType = Int32
  type EnumDealEntry = Int32
  type EnumDealReason = Int32
}
