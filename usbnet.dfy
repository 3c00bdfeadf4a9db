/** Start-up of the usbnet application: init_app registers the event handler
    only when the connection manager is configured, and brings up USB and the
    network either way. */
module Usbnet {
  import opened NetMonitor

  /** init_usb: the result of usb_enable is passed back unchanged, so a
      failure code is returned as is and success as 0. */
  method InitUsb(usbEnableRet: int) returns (ret: int)
    ensures ret == usbEnableRet
    ensures ret == 0 <==> usbEnableRet == 0
  {
    // a failure of usb_enable is only logged before it is returned
    return usbEnableRet;
  }

  /** init_app. The configuration flag and the results of usb_enable and
      net_config_init_app are inputs; init_ip and the status resend of the
      connection manager are outside the model. The result of init_usb is
      ignored. */
  method InitApp(m: Monitor, connMgrEnabled: bool, usbEnableRet: int, netConfigRet: int)
    returns (ret: int)
    modifies m`callbackRegistered
    ensures m.callbackRegistered == (connMgrEnabled || old(m.callbackRegistered))
    ensures ret == netConfigRet
  {
    if connMgrEnabled {
      m.callbackRegistered := true;
    }

    var _ := InitUsb(usbEnableRet);

    // a failure of net_config_init_app is only logged before it is returned
    return netConfigRet;
  }
}
