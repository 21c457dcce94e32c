/** Which controller a HID device is, decided once when a session is created. */
module Device {

  const DS4_VENDOR := 0x054C
  const DS4_USB := 0x05C4
  const DS4_USB_V2 := 0x09CC
  const DS4_BT := 0x081F

  const JOYCON_VENDOR := 0x057E
  const JOYCON_L_BT := 0x2006
  const JOYCON_R_BT := 0x2007
  const PRO_CONTROLLER := 0x2009
  const JOYCON_CHARGING_GRIP := 0x200E

  /**
   * The classification the session keeps: `leftRight` is 1 for a left
   * Joy-Con, 2 for a right Joy-Con, 3 for a Pro Controller or DualShock 4 and
   * 0 when nothing matched.
   */
  datatype Kind = Kind(leftRight: int, isUsb: bool, isDs4: bool)

  predicate IsDs4Product(productId: int)
  {
    productId == DS4_BT || productId == DS4_USB || productId == DS4_USB_V2
  }

  /**
   * The constructor's product-id and interface-number tests, in their order:
   * the charging grip first, then the Bluetooth Joy-Cons and Pro Controller,
   * and last the DualShock 4, which overrides everything before it. The
   * vendor id is not consulted.
   */
  function Classify(productId: int, interfaceNumber: int): (k: Kind)
    ensures k.isDs4 <==> IsDs4Product(productId)
    ensures k.leftRight == 1 <==>
      productId == JOYCON_L_BT || (productId == JOYCON_CHARGING_GRIP && interfaceNumber == 1)
    ensures k.leftRight == 2 <==>
      productId == JOYCON_R_BT || (productId == JOYCON_CHARGING_GRIP && (interfaceNumber == 0 || interfaceNumber == -1))
    ensures k.leftRight == 3 <==> productId == PRO_CONTROLLER || IsDs4Product(productId)
    ensures 0 <= k.leftRight <= 3
    ensures k.isUsb <==>
      (productId == JOYCON_CHARGING_GRIP && -1 <= interfaceNumber <= 1) || productId == DS4_USB || productId == DS4_USB_V2
  {
    var grip :=
      if productId != JOYCON_CHARGING_GRIP then Kind(0, false, false)
      else if interfaceNumber == 0 || interfaceNumber == -1 then Kind(2, true, false)
      else if interfaceNumber == 1 then Kind(1, true, false)
      else Kind(0, false, false);
    var wireless :=
      if productId == JOYCON_L_BT then grip.(leftRight := 1)
      else if productId == JOYCON_R_BT then grip.(leftRight := 2)
      else if productId == PRO_CONTROLLER then grip.(leftRight := 3)
      else grip;
    if IsDs4Product(productId) then Kind(3, productId != DS4_BT, true) else wireless
  }
}
