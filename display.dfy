/** How the navigation bar and the dashboard show the wallet state. */
module WalletDisplay {
  import opened JsString
  import opened Wallet

  /** The navigation bar's wallet button: the short address when one is
      connected, otherwise the "Connect Wallet" prompt. */
  function NavbarWalletLabel(walletAddress: Option<string>): (r: string)
    ensures !Falsy(walletAddress) ==> r == ShortenAddress(walletAddress)
    ensures |r| <= 14
  {
    if Falsy(walletAddress) then "Connect Wallet" else ShortenAddress(walletAddress)
  }

  /** The dashboard's wallet card: the short address when one is connected,
      otherwise "Not connected". */
  function DashboardWalletLabel(walletAddress: Option<string>): (r: string)
    ensures !Falsy(walletAddress) ==> r == ShortenAddress(walletAddress)
    ensures |r| <= 13
  {
    if Falsy(walletAddress) then "Not connected" else ShortenAddress(walletAddress)
  }

  /** The navigation bar's label shows the prompt exactly when no wallet is
      connected: no short address reads "Connect Wallet". */
  lemma NavbarLabelUnambiguous(walletAddress: Option<string>)
    ensures NavbarWalletLabel(walletAddress) == "Connect Wallet" <==> Falsy(walletAddress)
  {
  }

  /** The dashboard shows "Not connected" exactly when no wallet is
      connected: the short form of a long enough address has "..." where
      that text has "nne". */
  lemma DashboardLabelUnambiguous(walletAddress: Option<string>)
    ensures DashboardWalletLabel(walletAddress) == "Not connected" <==> Falsy(walletAddress)
  {
    if !Falsy(walletAddress) {
      var s := walletAddress.value;
      var r := ShortenAddress(walletAddress);
      if |r| == 13 {
        assert |s| >= 6;
        ShortenParts(s);
        assert r[6] == '.';
        assert "Not connected"[6] == 'n';
      }
    }
  }

  /** Were a caller to store disconnectWallet's result, both labels would
      fall back to their prompts. */
  lemma LabelsAfterDisconnect(state: Option<string>)
    ensures NavbarWalletLabel(AfterDisconnect(state)) == "Connect Wallet"
    ensures DashboardWalletLabel(AfterDisconnect(state)) == "Not connected"
  {
  }
}
