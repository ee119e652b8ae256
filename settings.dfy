/**
 * The settings page (src/app/settings/page.tsx): the recipient input, the
 * threshold rows, the interface device selector and the discovery button,
 * with the requests their handlers issue and the cached queries each
 * successful request marks stale.
 */
module Settings {
  import opened Types
  import Api
  import opened QueryCache

  /**
   * `handleAddRecipient`'s test on the input: non-empty and containing `@`.
   * The non-empty test is implied by the other one.
   */
  function AcceptsRecipient(input: string): (ok: bool)
    ensures ok <==> '@' in input
  {
    input != "" && '@' in input
  }

  /**
   * A device row's starting text for a threshold input:
   * `threshold?.toString() || '80'`. `shown` is the threshold's decimal
   * text when the device has one; an empty text would fall back too, but
   * no number's text is empty.
   */
  function InitialThresholdText(shown: Option<string>): (text: string)
    ensures text != ""
    ensures shown.Some? && shown.value != "" ==> text == shown.value
    ensures shown.None? ==> text == "80"
  {
    match shown
    case Some(t) => if t != "" then t else "80"
    case None => "80"
  }

  /** A present threshold of 0 shows "0": the fallback tests the text, not the number. */
  lemma ZeroThresholdShown()
    ensures InitialThresholdText(Some("0")) == "0"
  {
  }

  /** The page's own state, the requests it has issued, and the stale cached queries. */
  class SettingsPage {
    var newRecipient: string
    var selectedDeviceForInterface: string
    var isDiscovering: bool
    /** The cached queries marked stale so far. */
    var stale: set<QueryKey>
    /** The backend requests issued so far, oldest first. */
    var sent: seq<Api.Request>

    constructor ()
      ensures newRecipient == "" && selectedDeviceForInterface == "" && !isDiscovering
      ensures stale == {} && sent == []
    {
      newRecipient, selectedDeviceForInterface, isDiscovering := "", "", false;
      stale, sent := {}, [];
    }

    /** The discovery button's `disabled` attribute. */
    predicate DiscoveryDisabled()
      reads this
    {
      isDiscovering
    }

    /** The interface query's `enabled` option: a device is selected. */
    predicate InterfacesEnabled()
      reads this
    {
      selectedDeviceForInterface != ""
    }

    /** The interface query's key. */
    function InterfacesKey(): QueryKey
      reads this
    {
      DeviceInterfaces(selectedDeviceForInterface)
    }

    /** The recipient input's `onChange`. */
    method SetNewRecipient(value: string)
      modifies this
      ensures newRecipient == value
      ensures selectedDeviceForInterface == old(selectedDeviceForInterface) && isDiscovering == old(isDiscovering)
      ensures stale == old(stale) && sent == old(sent)
    {
      newRecipient := value;
    }

    /** The interface tab's device select. */
    method SelectDeviceForInterface(ip: string)
      modifies this
      ensures selectedDeviceForInterface == ip
      ensures newRecipient == old(newRecipient) && isDiscovering == old(isDiscovering)
      ensures stale == old(stale) && sent == old(sent)
    {
      selectedDeviceForInterface := ip;
    }

    /** `handleAddRecipient`: submits the input when it holds an `@`, and otherwise does nothing. */
    method HandleAddRecipient()
      modifies this
      ensures '@' in old(newRecipient) ==> sent == old(sent) + [Api.AddRecipient(old(newRecipient))]
      ensures '@' !in old(newRecipient) ==> sent == old(sent)
      ensures newRecipient == old(newRecipient) && selectedDeviceForInterface == old(selectedDeviceForInterface)
      ensures isDiscovering == old(isDiscovering) && stale == old(stale)
    {
      if AcceptsRecipient(newRecipient) {
        sent := sent + [Api.AddRecipient(newRecipient)];
      }
    }

    /** The add mutation's `onSuccess`: recipients are stale and the input is cleared. */
    method AddRecipientSucceeded()
      modifies this
      ensures stale == Invalidate(old(stale), Recipients) && newRecipient == ""
      ensures selectedDeviceForInterface == old(selectedDeviceForInterface) && isDiscovering == old(isDiscovering)
      ensures sent == old(sent)
    {
      stale := Invalidate(stale, Recipients);
      newRecipient := "";
    }

    /** A recipient's delete button. */
    method DeleteRecipient(email: string)
      modifies this
      ensures sent == old(sent) + [Api.DeleteRecipient(email)]
      ensures newRecipient == old(newRecipient) && selectedDeviceForInterface == old(selectedDeviceForInterface)
      ensures isDiscovering == old(isDiscovering) && stale == old(stale)
    {
      sent := sent + [Api.DeleteRecipient(email)];
    }

    /** The delete mutation's `onSuccess`: recipients are stale, nothing else changes. */
    method DeleteRecipientSucceeded()
      modifies this
      ensures stale == Invalidate(old(stale), Recipients)
      ensures newRecipient == old(newRecipient) && selectedDeviceForInterface == old(selectedDeviceForInterface)
      ensures isDiscovering == old(isDiscovering) && sent == old(sent)
    {
      stale := Invalidate(stale, Recipients);
    }

    /** A device row's CPU save button, with the number read from its input. */
    method SaveCpuThreshold(ip: string, threshold: real)
      modifies this
      ensures sent == old(sent) + [Api.UpdateCpuThreshold(ip, threshold)]
      ensures newRecipient == old(newRecipient) && selectedDeviceForInterface == old(selectedDeviceForInterface)
      ensures isDiscovering == old(isDiscovering) && stale == old(stale)
    {
      sent := sent + [Api.UpdateCpuThreshold(ip, threshold)];
    }

    /** A device row's memory save button, with the number read from its input. */
    method SaveMemoryThreshold(ip: string, threshold: real)
      modifies this
      ensures sent == old(sent) + [Api.UpdateMemoryThreshold(ip, threshold)]
      ensures newRecipient == old(newRecipient) && selectedDeviceForInterface == old(selectedDeviceForInterface)
      ensures isDiscovering == old(isDiscovering) && stale == old(stale)
    {
      sent := sent + [Api.UpdateMemoryThreshold(ip, threshold)];
    }

    /** An interface row's save button: the request goes to the selected device. */
    method SaveInterfaceThreshold(ifIndex: int, threshold: real)
      modifies this
      ensures sent == old(sent) + [Api.UpdateInterfaceThreshold(old(selectedDeviceForInterface), ifIndex, threshold)]
      ensures newRecipient == old(newRecipient) && selectedDeviceForInterface == old(selectedDeviceForInterface)
      ensures isDiscovering == old(isDiscovering) && stale == old(stale)
    {
      sent := sent + [Api.UpdateInterfaceThreshold(selectedDeviceForInterface, ifIndex, threshold)];
    }

    /** The CPU or memory threshold mutation's `onSuccess`: the device list is stale. */
    method DeviceThresholdSucceeded()
      modifies this
      ensures stale == Invalidate(old(stale), Devices)
      ensures newRecipient == old(newRecipient) && selectedDeviceForInterface == old(selectedDeviceForInterface)
      ensures isDiscovering == old(isDiscovering) && sent == old(sent)
    {
      stale := Invalidate(stale, Devices);
    }

    /** The interface threshold mutation's `onSuccess`: the selected device's interfaces are stale. */
    method InterfaceThresholdSucceeded()
      modifies this
      ensures stale == Invalidate(old(stale), DeviceInterfaces(old(selectedDeviceForInterface)))
      ensures newRecipient == old(newRecipient) && selectedDeviceForInterface == old(selectedDeviceForInterface)
      ensures isDiscovering == old(isDiscovering) && sent == old(sent)
    {
      stale := Invalidate(stale, InterfacesKey());
    }

    /** `handleRunDiscovery`: the button shows discovering and the discovery request goes out. */
    method RunDiscovery()
      modifies this
      ensures isDiscovering && DiscoveryDisabled()
      ensures sent == old(sent) + [Api.Discover]
      ensures newRecipient == old(newRecipient) && selectedDeviceForInterface == old(selectedDeviceForInterface)
      ensures stale == old(stale)
    {
      isDiscovering := true;
      sent := sent + [Api.Discover];
    }

    /** The discovery mutation's `onSuccess`: the device list is stale and the button is released. */
    method DiscoverySucceeded()
      modifies this
      ensures stale == Invalidate(old(stale), Devices)
      ensures !isDiscovering && !DiscoveryDisabled()
      ensures newRecipient == old(newRecipient) && selectedDeviceForInterface == old(selectedDeviceForInterface)
      ensures sent == old(sent)
    {
      stale := Invalidate(stale, Devices);
      isDiscovering := false;
    }

    /** The discovery mutation's `onError`: the button is released, nothing becomes stale. */
    method DiscoveryFailed()
      modifies this
      ensures !isDiscovering && !DiscoveryDisabled()
      ensures newRecipient == old(newRecipient) && selectedDeviceForInterface == old(selectedDeviceForInterface)
      ensures stale == old(stale) && sent == old(sent)
    {
      isDiscovering := false;
    }
  }

  /** A device threshold row's own state: the text of its two inputs. */
  class DeviceThresholdRow {
    var cpuText: string
    var memoryText: string

    /** The row starts from the device's thresholds, or "80" where one is absent. */
    constructor (cpuShown: Option<string>, memoryShown: Option<string>)
      ensures cpuText == InitialThresholdText(cpuShown)
      ensures memoryText == InitialThresholdText(memoryShown)
    {
      cpuText := InitialThresholdText(cpuShown);
      memoryText := InitialThresholdText(memoryShown);
    }
  }

  /** An interface threshold row's own state: the text of its input. */
  class InterfaceThresholdRow {
    var thresholdText: string

    /** The row starts at "100", whatever the interface. */
    constructor ()
      ensures thresholdText == "100"
    {
      thresholdText := "100";
    }
  }

  /**
   * Adding a valid address: one request goes out, and on success the input
   * is empty and only the recipient list is stale.
   */
  method AddRecipientFlow(email: string) returns (sent: seq<Api.Request>, input: string, stale: set<QueryKey>)
    requires '@' in email
    ensures sent == [Api.AddRecipient(email)]
    ensures input == "" && stale == {Recipients}
  {
    var page := new SettingsPage();
    page.SetNewRecipient(email);
    page.HandleAddRecipient();
    page.AddRecipientSucceeded();
    sent, input, stale := page.sent, page.newRecipient, page.stale;
  }

  /** An address without `@` sends nothing and keeps the input as typed. */
  method RejectedRecipientFlow(input: string) returns (sent: seq<Api.Request>, kept: string)
    requires '@' !in input
    ensures sent == [] && kept == input
  {
    var page := new SettingsPage();
    page.SetNewRecipient(input);
    page.HandleAddRecipient();
    sent, kept := page.sent, page.newRecipient;
  }

  /**
   * A discovery that fails, then one that succeeds: the button is disabled
   * exactly while a discovery is running, and only the success makes the
   * device list stale.
   */
  method DiscoveryFlow() returns (disabledWhileRunning: bool, disabledAfterError: bool,
                                  staleAfterError: set<QueryKey>, staleAfterSuccess: set<QueryKey>,
                                  disabledAfterSuccess: bool)
    ensures disabledWhileRunning && !disabledAfterError && !disabledAfterSuccess
    ensures staleAfterError == {} && staleAfterSuccess == {Devices}
  {
    var page := new SettingsPage();
    page.RunDiscovery();
    disabledWhileRunning := page.DiscoveryDisabled();
    page.DiscoveryFailed();
    disabledAfterError, staleAfterError := page.DiscoveryDisabled(), page.stale;
    page.RunDiscovery();
    page.DiscoverySucceeded();
    disabledAfterSuccess, staleAfterSuccess := page.DiscoveryDisabled(), page.stale;
  }

  /**
   * Interface thresholds: nothing is fetched before a device is chosen;
   * saving goes to the chosen device, and its success makes that device's
   * interfaces stale.
   */
  method InterfaceFlow(ip: string, ifIndex: int, threshold: real)
    returns (enabledBefore: bool, enabledAfter: bool, sent: seq<Api.Request>, stale: set<QueryKey>)
    requires ip != ""
    ensures !enabledBefore && enabledAfter
    ensures sent == [Api.UpdateInterfaceThreshold(ip, ifIndex, threshold)]
    ensures stale == {DeviceInterfaces(ip)}
  {
    var page := new SettingsPage();
    enabledBefore := page.InterfacesEnabled();
    page.SelectDeviceForInterface(ip);
    enabledAfter := page.InterfacesEnabled();
    page.SaveInterfaceThreshold(ifIndex, threshold);
    page.InterfaceThresholdSucceeded();
    sent, stale := page.sent, page.stale;
  }
}
